/** What every command keeps, and what therefore holds after any run: a frozen
    snapshot always equals the live ledger through its period end. */
module CloseInvariant {
  import opened Sums
  import opened JournalTables
  import opened ClosingJournal
  import opened BookStore

  // ------------------------------------------------------------- the premises

  /** The catalogue is well formed: codes are distinct, the income classes are
      exactly the income roles, cash is an asset and 310100 is equity. */
  predicate WellFormedChart(chart: Chart) {
    && DistinctCodes(chart)
    && forall a :: a in chart ==>
         && (a.class_ in {Revenue, Expense} <==> a.role.Some? && a.role.value in IncomeRoles())
         && (a.role == Some("cash_receipt") ==> a.class_ == Asset)
         && (a.code == RETAINED_EARNINGS ==> a.class_ == Equity)
  }

  predicate Disjoint(a: Period, b: Period) {
    a.end < b.start || b.end < a.start
  }

  ghost predicate EarlierHard(s: State, book: string, p: nat)
    requires p < |s.periods|
  {
    forall q :: 0 <= q < |s.periods| && s.periods[q].start < s.periods[p].start ==>
      Effective(s, book, q) == HardClosed
  }

  /** What the platform relies on and does not check. New periods are disjoint
      from the others and later than anything hard-closed, and a hard close
      finds every earlier period already hard-closed for its book. */
  ghost predicate Orderly(s: State, c: Command) {
    match c
    case OpenPeriod(_, code, start, end, _, _) =>
      FindPeriod(s.periods, code).None? && start.Some? && end.Some? ==>
        forall p :: 0 <= p < |s.periods| ==>
          && Disjoint(s.periods[p], Period(code, start.value, end.value, Open))
          && ((exists book :: book in s.charts && Effective(s, book, p) == HardClosed) ==>
                start.value > s.periods[p].end)
    case Close(book, code, status, _, _) =>
      var found := FindPeriod(s.periods, code);
      status == HardClosed && found.Some? ==> EarlierHard(s, book, found.value)
    case RegisterBook(_, chart) => WellFormedChart(chart)
    case _ => true
  }

  ghost predicate OrderlyRun(s: State, commands: seq<Command>) {
    commands != [] ==>
      && OrderlyRun(s, commands[..|commands| - 1])
      && Orderly(Run(s, commands[..|commands| - 1]), commands[|commands| - 1])
  }

  // ------------------------------------------------------------ the invariant

  predicate PeriodsOk(s: State) {
    && (forall p :: 0 <= p < |s.periods| ==> s.periods[p].start <= s.periods[p].end)
    && (forall p, q :: 0 <= p < q < |s.periods| ==>
          Disjoint(s.periods[p], s.periods[q]) && s.periods[p].code != s.periods[q].code)
    && (forall book :: book in s.charts ==> WellFormedChart(s.charts[book]))
    && (forall k :: k in s.controls ==> k.0 in s.charts && k.1 < |s.periods|)
  }

  predicate JournalOk(s: State, j: Journal) {
    && j.book in s.charts && j.period < |s.periods| && Covers(s.periods[j.period], j.date)
    && (forall l :: l in j.lines ==> Listed(s.charts[j.book], l.account))
    && AllOneSided(j.lines) && DistinctNumbers(j.lines) && j.lines != [] && Balanced(j.lines)
    && (j.ref.ReversalOf? ==> j.ref.original.Posted?)
    && (j.ref.Closing? ==>
          && !j.finalized
          && j.date == s.periods[j.period].end
          && forall l :: l in j.lines ==>
               l.account == RETAINED_EARNINGS || HasRole(s.charts[j.book], IncomeRoles())(l.account))
  }

  predicate JournalsOk(s: State) {
    forall j :: j in s.journals ==> JournalOk(s, j)
  }

  /** The calendar status of a period is that of its least-closed active book. */
  ghost predicate ShowsLeastClosed(s: State, p: nat)
    requires p < |s.periods|
  {
    && (s.periods[p].status == HardClosed <==>
          s.charts.Keys != {} && forall book :: book in s.charts ==> Effective(s, book, p) == HardClosed)
    && (s.periods[p].status == Open <==>
          s.charts.Keys == {} || exists book :: book in s.charts && Effective(s, book, p) == Open)
  }

  /** The calendar shows the least-closed status of the active books. */
  ghost predicate CalendarOk(s: State) {
    forall p :: 0 <= p < |s.periods| ==> ShowsLeastClosed(s, p)
  }

  ghost predicate OrderOk(s: State) {
    forall book, p :: book in s.charts && 0 <= p < |s.periods| && Effective(s, book, p) == HardClosed ==>
      EarlierHard(s, book, p)
  }

  /** The stored rows are what the live query would return now. */
  predicate Fresh(s: State, book: string, p: nat)
    requires (book, p) in s.snapshots && book in s.charts && p < |s.periods|
  {
    s.snapshots[(book, p)].rows == TrialBalance(s, book, s.periods[p].end)
  }

  predicate IncomeCleared(s: State, book: string, date: Date)
    requires book in s.charts
  {
    IncomeTotal(s.charts[book], s.journals, Through(book, date)) == 0
  }

  ghost predicate IncomeAccountsCleared(s: State, book: string, date: Date)
    requires book in s.charts
  {
    forall code :: HasRole(s.charts[book], IncomeRoles())(code) ==> NetOf(s.journals, Through(book, date), code) == 0
  }

  ghost predicate SnapshotOk(s: State, book: string, p: nat)
    requires (book, p) in s.snapshots
  {
    && book in s.charts && p < |s.periods|
    && Effective(s, book, p) == HardClosed
    && Fresh(s, book, p)
    && s.snapshots[(book, p)].count == JournalCount(s.journals, Through(book, s.periods[p].end))
    && IncomeCleared(s, book, s.periods[p].end)
    && IncomeAccountsCleared(s, book, s.periods[p].end)
  }

  ghost predicate SnapshotsOk(s: State) {
    forall book, p :: (book, p) in s.snapshots ==> SnapshotOk(s, book, p)
  }

  /** A hard-closed book period without a snapshot was closed before the book
      existed, so it holds no journals of that book. */
  ghost predicate QuietOk(s: State) {
    forall p, j :: 0 <= p < |s.periods| && j in s.journals && j.book in s.charts &&
                   Effective(s, j.book, p) == HardClosed && (j.book, p) !in s.snapshots ==>
      j.period != p
  }

  /** The invariant part by part: a proof that only carries it along does not see
      the parts until it asks for them. */
  datatype Part = PeriodsPart | JournalsPart | CalendarPart | OrderPart | SnapshotsPart | QuietPart

  ghost predicate Keeps(part: Part, s: State) {
    match part
    case PeriodsPart => PeriodsOk(s)
    case JournalsPart => JournalsOk(s)
    case CalendarPart => CalendarOk(s)
    case OrderPart => OrderOk(s)
    case SnapshotsPart => SnapshotsOk(s)
    case QuietPart => QuietOk(s)
  }

  ghost predicate Inv(s: State) {
    forall part :: Keeps(part, s)
  }

  /** The parts about periods, charts and journals alone. */
  ghost predicate SoundLedger(s: State) {
    forall part :: part in {PeriodsPart, JournalsPart} ==> Keeps(part, s)
  }

  lemma LedgerOf(s: State)
    requires SoundLedger(s)
    ensures PeriodsOk(s) && JournalsOk(s)
  {
    assert Keeps(PeriodsPart, s) && Keeps(JournalsPart, s);
  }

  lemma ControlOf(s: State)
    requires Inv(s)
    ensures PeriodsOk(s) && CalendarOk(s) && OrderOk(s)
  {
    assert Keeps(PeriodsPart, s) && Keeps(CalendarPart, s) && Keeps(OrderPart, s);
  }

  lemma RecordsOf(s: State)
    requires Inv(s)
    ensures JournalsOk(s) && SnapshotsOk(s) && QuietOk(s)
  {
    assert Keeps(JournalsPart, s) && Keeps(SnapshotsPart, s) && Keeps(QuietPart, s);
  }

  /** Every snapshot is of a book period that is hard-closed. */
  predicate SnapshotsClosed(s: State) {
    forall k :: k in s.snapshots ==> k.0 in s.charts && k.1 < |s.periods| && Effective(s, k.0, k.1) == HardClosed
  }

  lemma SnapshotsAreClosed(s: State)
    requires Inv(s)
    ensures SnapshotsClosed(s)
  {
    assert Keeps(SnapshotsPart, s);
    forall k | k in s.snapshots
      ensures k.0 in s.charts && k.1 < |s.periods| && Effective(s, k.0, k.1) == HardClosed
    {
      assert SnapshotOk(s, k.0, k.1);
    }
  }

  lemma OwnCodeIsFound(s: State, p: nat)
    requires PeriodsOk(s) && p < |s.periods|
    ensures FindPeriod(s.periods, s.periods[p].code) == Some(p)
  {
  }

  lemma NotHardNoSnapshot(s: State, book: string, p: nat)
    requires Inv(s) && p < |s.periods| && Effective(s, book, p) != HardClosed
    ensures (book, p) !in s.snapshots
  {
    assert Keeps(SnapshotsPart, s);
    assert (book, p) in s.snapshots ==> SnapshotOk(s, book, p);
  }

  lemma AllParts(s: State)
    requires PeriodsOk(s) && CalendarOk(s) && OrderOk(s) && JournalsOk(s) && SnapshotsOk(s) && QuietOk(s)
    ensures Inv(s)
  {
    forall part ensures Keeps(part, s) {
      match part
      case PeriodsPart =>
      case JournalsPart =>
      case CalendarPart =>
      case OrderPart =>
      case SnapshotsPart =>
      case QuietPart =>
    }
  }

  // --------------------------------------------------------- journal insertion

  /** A date that falls behind a hard-closed period of the book lies in a
      period that is itself hard-closed. */
  lemma BehindHardIsHard(s: State, book: string, p: nat, closed: nat, date: Date)
    requires PeriodsOk(s) && OrderOk(s) && book in s.charts
    requires p < |s.periods| && closed < |s.periods| && Covers(s.periods[p], date)
    requires Effective(s, book, closed) == HardClosed && date <= s.periods[closed].end
    ensures Effective(s, book, p) == HardClosed
  {
    if p != closed {
      assert Disjoint(s.periods[p], s.periods[closed]);
      assert EarlierHard(s, book, closed);
    }
  }

  lemma InsertKeepsSums(s: State, j: Journal, sel: Journal -> bool, chart: Chart)
    requires !sel(j)
    ensures Rows(chart, s.journals + [j], sel) == Rows(chart, s.journals, sel)
    ensures JournalCount(s.journals + [j], sel) == JournalCount(s.journals, sel)
    ensures IncomeTotal(chart, s.journals + [j], sel) == IncomeTotal(chart, s.journals, sel)
    ensures forall code :: NetOf(s.journals + [j], sel, code) == NetOf(s.journals, sel, code)
  {
    RowsIgnoreUnselected(chart, s.journals, j, sel);
    assert (s.journals + [j])[..|s.journals|] == s.journals;
    SumAppend(s.journals, j, Picked(sel, NetIn(HasRole(chart, IncomeRoles()))));
    forall code ensures NetOf(s.journals + [j], sel, code) == NetOf(s.journals, sel, code) {
      SumAppend(s.journals, j, Picked(sel, NetIn(Only(code))));
    }
  }

  /** An accepted insert lies after every snapshot of its book. */
  lemma InsertedAfterSnapshots(s: State, j: Journal, role: WriteRole, p: nat)
    requires Inv(s) && j.period < |s.periods| && Covers(s.periods[j.period], j.date)
    requires InsertRefusal(s, j, role).None?
    requires (j.book, p) in s.snapshots && p < |s.periods|
    ensures j.date > s.periods[p].end
  {
    ControlOf(s);
    RecordsOf(s);
    assert SnapshotOk(s, j.book, p);
    if j.date <= s.periods[p].end {
      BehindHardIsHard(s, j.book, j.period, p, j.date);
    }
  }

  /** The database guards leave only the reference conditions to show. */
  lemma InsertedJournalOk(s: State, j: Journal, role: WriteRole)
    requires j.period < |s.periods| && InsertRefusal(s, j, role).None?
    requires Covers(s.periods[j.period], j.date)
    requires j.ref.Posted? || (j.ref.ReversalOf? && j.ref.original.Posted?)
    ensures JournalOk(s, j)
  {
    NoLineIsRefusedExactlyWhen(s.charts[j.book], j.lines);
  }

  /** Two states in which every active book sees the same statuses. */
  predicate SameEffective(s: State, t: State) {
    && t.charts == s.charts && |s.periods| <= |t.periods|
    && forall book, p :: book in s.charts && 0 <= p < |s.periods| ==> Effective(t, book, p) == Effective(s, book, p)
  }

  /** Period control depends only on the calendar and the effective statuses. */
  lemma ControlCarries(s: State, t: State)
    requires PeriodsOk(s) && CalendarOk(s) && OrderOk(s)
    requires SameEffective(s, t) && t.periods == s.periods
    requires forall k :: k in t.controls ==> k.0 in t.charts && k.1 < |t.periods|
    ensures PeriodsOk(t) && CalendarOk(t) && OrderOk(t)
  {
    forall book, p | book in t.charts && 0 <= p < |t.periods| && Effective(t, book, p) == HardClosed
      ensures EarlierHard(t, book, p)
    {
      assert EarlierHard(s, book, p);
    }
    forall p | 0 <= p < |t.periods| ensures ShowsLeastClosed(t, p) {
      assert ShowsLeastClosed(s, p);
    }
  }

  /** Journals and snapshots stay in order when only period control moves. */
  lemma RecordsCarry(s: State, t: State)
    requires JournalsOk(s) && SnapshotsOk(s) && QuietOk(s)
    requires SameEffective(s, t) && s.periods <= t.periods
    requires t.journals == s.journals && t.snapshots == s.snapshots
    ensures JournalsOk(t) && SnapshotsOk(t) && QuietOk(t)
  {
    forall book, p | (book, p) in t.snapshots ensures SnapshotOk(t, book, p) {
      assert SnapshotOk(s, book, p);
    }
    forall j | j in t.journals ensures JournalOk(t, j) {
      assert JournalOk(s, j);
    }
  }

  lemma InsertKeepsSnapshots(s: State, j: Journal, role: WriteRole)
    requires Inv(s) && j.period < |s.periods| && InsertRefusal(s, j, role).None?
    requires JournalOk(s, j)
    ensures SnapshotsOk(Inserted(s, j))
  {
    var t := Inserted(s, j);
    RecordsOf(s);
    forall book, p | (book, p) in t.snapshots ensures SnapshotOk(t, book, p) {
      assert SnapshotOk(s, book, p);
      if book == j.book {
        InsertedAfterSnapshots(s, j, role, p);
      }
      InsertKeepsSums(s, j, Through(book, s.periods[p].end), s.charts[book]);
    }
  }

  lemma InsertKeepsQuiet(s: State, j: Journal, role: WriteRole)
    requires JournalsOk(s) && QuietOk(s) && j.period < |s.periods| && InsertRefusal(s, j, role).None?
    ensures QuietOk(Inserted(s, j))
  {
    var t := Inserted(s, j);
    forall p, k | 0 <= p < |t.periods| && k in t.journals && k.book in t.charts
        && Effective(t, k.book, p) == HardClosed && (k.book, p) !in t.snapshots
      ensures k.period != p
    {
      assert Effective(s, k.book, p) == HardClosed;
      if k !in s.journals {
        assert k == j && Effective(s, j.book, j.period) != HardClosed;
      }
    }
  }

  lemma InsertKeepsControl(s: State, j: Journal)
    requires Inv(s)
    ensures PeriodsOk(Inserted(s, j)) && CalendarOk(Inserted(s, j)) && OrderOk(Inserted(s, j))
  {
    ControlOf(s);
    ControlCarries(s, Inserted(s, j));
  }

  lemma InsertKeepsJournals(s: State, j: Journal, role: WriteRole)
    requires Inv(s) && j.period < |s.periods| && InsertRefusal(s, j, role).None?
    requires JournalOk(s, j)
    ensures JournalsOk(Inserted(s, j)) && QuietOk(Inserted(s, j))
  {
    RecordsOf(s);
    InsertKeepsQuiet(s, j, role);
    forall k | k in Inserted(s, j).journals ensures JournalOk(Inserted(s, j), k) {
      assert k in s.journals || k == j;
    }
  }

  lemma InsertKeepsInv(s: State, j: Journal, role: WriteRole)
    requires Inv(s) && j.period < |s.periods| && InsertRefusal(s, j, role).None?
    requires JournalOk(s, j)
    ensures Inv(Inserted(s, j))
  {
    InsertKeepsControl(s, j);
    InsertKeepsSnapshots(s, j, role);
    InsertKeepsJournals(s, j, role);
    AllParts(Inserted(s, j));
  }

  // -------------------------------------------------------------- plain steps

  lemma PostKeepsInv(s: State, c: Command)
    requires Inv(s) && c.Post?
    ensures Inv(PostStep(s, c).state)
  {
    if PostStep(s, c).reply.Accepted? {
      var covering := CoveringPeriod(s.periods, c.date);
      var j := Journal(Ref.Posted(c.id), c.policy.book, covering.value, c.date,
        Resolved(c.proposed, c.policy.mapping), c.key, Payload(c.hash), true);
      InsertedJournalOk(s, j, Ordinary);
      InsertKeepsInv(s, j, Ordinary);
    }
  }

  lemma AdjustKeepsInv(s: State, c: Command)
    requires Inv(s) && c.Adjust?
    ensures Inv(AdjustStep(s, c).state)
  {
    if AdjustStep(s, c).reply.Accepted? {
      var found := FindPeriod(s.periods, c.code);
      var j := Journal(Ref.Posted(c.id), c.book, found.value, c.date, c.lines, c.key, Payload(c.hash), true);
      InsertedJournalOk(s, j, Adjusting);
      InsertKeepsInv(s, j, Adjusting);
    }
  }

  /** Only a posted journal is ever reversed: a closing journal has no receipt. */
  lemma ReverseKeepsInv(s: State, c: Command)
    requires Inv(s) && c.Reverse?
    ensures Inv(ReverseStep(s, c).state)
  {
    if ReverseStep(s, c).reply.Accepted? {
      var original := JournalByRef(s.journals, c.original).value;
      var covering := CoveringPeriod(s.periods, c.date);
      var j := Journal(ReversalOf(c.original), original.book, covering.value, c.date, Opposite(original.lines), c.key,
        ReversalCommand(c.key, c.original, c.date, c.reason), true);
      assert Keeps(JournalsPart, s) && JournalOk(s, original);
      InsertedJournalOk(s, j, Reversal);
      InsertKeepsInv(s, j, Reversal);
    }
  }

  lemma OpenForAll(s: State, p: nat)
    requires p < |s.periods| && s.periods[p].status == Open
    requires forall book :: book in s.charts ==> Effective(s, book, p) == Open
    ensures ShowsLeastClosed(s, p)
  {
    if s.charts.Keys != {} {
      var book :| book in s.charts;
      assert Effective(s, book, p) == Open;
    }
  }

  lemma PeriodAddedKeepsControl(s: State, t: State, period: Period)
    requires PeriodsOk(s) && CalendarOk(s) && OrderOk(s) && period.status == Open
    requires t.charts == s.charts && t.controls == s.controls && t.periods == s.periods + [period]
    requires forall book, p :: book in s.charts && 0 <= p < |s.periods| && Effective(s, book, p) == HardClosed ==>
               period.start > s.periods[p].end
    requires period.start <= period.end
    requires forall p :: 0 <= p < |s.periods| ==> Disjoint(s.periods[p], period) && s.periods[p].code != period.code
    ensures PeriodsOk(t) && CalendarOk(t) && OrderOk(t)
  {
    var n := |s.periods|;
    assert forall book, p :: 0 <= p < n ==> Effective(t, book, p) == Effective(s, book, p);
    forall book | book in t.charts ensures Effective(t, book, n) == Open {
      assert (book, n) !in s.controls;
    }
    forall book, p | book in t.charts && 0 <= p < |t.periods| && Effective(t, book, p) == HardClosed
      ensures EarlierHard(t, book, p)
    {
      assert EarlierHard(s, book, p);
    }
    forall p | 0 <= p < |t.periods| ensures ShowsLeastClosed(t, p) {
      if p < n {
        assert ShowsLeastClosed(s, p) && t.periods[p] == s.periods[p];
      } else {
        OpenForAll(t, p);
      }
    }
  }

  predicate OnlyPeriodsDiffer(s: State, t: State) {
    t.charts == s.charts && t.controls == s.controls && t.journals == s.journals && t.snapshots == s.snapshots
  }

  lemma NewPeriodKeepsInv(s: State, t: State, c: Command)
    requires Inv(s) && c.OpenPeriod? && Orderly(s, c) && OnlyPeriodsDiffer(s, t)
    requires FindPeriod(s.periods, c.code).None? && c.start.Some? && c.end.Some? && c.start.value <= c.end.value
    requires t.periods == s.periods + [Period(c.code, c.start.value, c.end.value, Open)]
    ensures Inv(t)
  {
    ControlOf(s);
    RecordsOf(s);
    PeriodAddedKeepsControl(s, t, Period(c.code, c.start.value, c.end.value, Open));
    RecordsCarry(s, t);
    AllParts(t);
  }

  lemma OldPeriodKeepsInv(s: State, t: State)
    requires Inv(s) && OnlyPeriodsDiffer(s, t) && t.periods == s.periods
    ensures Inv(t)
  {
    ControlOf(s);
    RecordsOf(s);
    ControlCarries(s, t);
    RecordsCarry(s, t);
    AllParts(t);
  }

  lemma OpenShape(s: State, c: Command)
    requires c.OpenPeriod?
    ensures var t := OpenStep(s, c).state;
            && OnlyPeriodsDiffer(s, t)
            && (t.periods == s.periods ||
                (&& FindPeriod(s.periods, c.code).None? && c.start.Some? && c.end.Some? && c.start.value <= c.end.value
                 && t.periods == s.periods + [Period(c.code, c.start.value, c.end.value, Open)]))
  {
  }

  lemma OpenKeepsInv(s: State, c: Command)
    requires Inv(s) && c.OpenPeriod? && Orderly(s, c)
    ensures Inv(OpenStep(s, c).state)
  {
    OpenShape(s, c);
    var t := OpenStep(s, c).state;
    if t.periods == s.periods {
      OldPeriodKeepsInv(s, t);
    } else {
      NewPeriodKeepsInv(s, t, c);
    }
  }

  lemma RegisterKeepsRecords(s: State, t: State, added: string, chart: Chart)
    requires JournalsOk(s) && SnapshotsOk(s) && QuietOk(s) && added !in s.charts
    requires t == s.(charts := s.charts[added := chart])
    ensures JournalsOk(t) && SnapshotsOk(t) && QuietOk(t)
  {
    assert forall book, p :: 0 <= p < |s.periods| ==> Effective(t, book, p) == Effective(s, book, p);
    forall book, p | (book, p) in t.snapshots ensures SnapshotOk(t, book, p) {
      assert SnapshotOk(s, book, p);
    }
    forall j | j in t.journals ensures JournalOk(t, j) {
      assert JournalOk(s, j);
    }
  }

  lemma CalendarIsInOrder(s: State, p: nat, q: nat)
    requires CalendarOk(s) && OrderOk(s) && p < |s.periods| && q < |s.periods|
    requires s.periods[q].start < s.periods[p].start && s.periods[p].status == HardClosed
    ensures s.periods[q].status == HardClosed
  {
    assert ShowsLeastClosed(s, p) && ShowsLeastClosed(s, q);
    forall book | book in s.charts ensures Effective(s, book, q) == HardClosed {
      assert EarlierHard(s, book, p);
    }
  }

  lemma NewBookFollowsCalendar(s: State, t: State, added: string, chart: Chart)
    requires CalendarOk(s) && added !in s.charts && t == s.(charts := s.charts[added := chart])
    requires forall p :: 0 <= p < |s.periods| ==> Effective(t, added, p) == s.periods[p].status
    ensures CalendarOk(t)
  {
    assert t.charts.Keys == s.charts.Keys + {added};
    forall p | 0 <= p < |t.periods| ensures ShowsLeastClosed(t, p) {
      assert ShowsLeastClosed(s, p);
      assert forall book :: book in s.charts ==> Effective(t, book, p) == Effective(s, book, p);
    }
  }

  /** A new book follows the calendar, and the calendar's hard-closed periods
      have only hard-closed periods before them. */
  lemma RegisterKeepsOrder(s: State, t: State, added: string, chart: Chart)
    requires PeriodsOk(s) && CalendarOk(s) && OrderOk(s) && added !in s.charts && WellFormedChart(chart)
    requires t == s.(charts := s.charts[added := chart])
    ensures PeriodsOk(t) && OrderOk(t) && CalendarOk(t)
  {
    assert forall book, p :: 0 <= p < |s.periods| ==> Effective(t, book, p) == Effective(s, book, p);
    assert forall p :: 0 <= p < |s.periods| ==> Effective(t, added, p) == s.periods[p].status;
    NewBookFollowsCalendar(s, t, added, chart);
    forall book, p | book in t.charts && 0 <= p < |t.periods| && Effective(t, book, p) == HardClosed
      ensures EarlierHard(t, book, p)
    {
      if book == added {
        forall q | 0 <= q < |t.periods| && t.periods[q].start < t.periods[p].start
          ensures Effective(t, added, q) == HardClosed
        {
          CalendarIsInOrder(s, p, q);
        }
      } else {
        assert EarlierHard(s, book, p);
      }
    }
  }

  lemma RegisterKeepsInv(s: State, c: Command)
    requires Inv(s) && c.RegisterBook? && Orderly(s, c)
    ensures Inv(RegisterStep(s, c).state)
  {
    var t := RegisterStep(s, c).state;
    if c.book !in s.charts {
      ControlOf(s);
      RecordsOf(s);
      RegisterKeepsOrder(s, t, c.book, c.chart);
      RegisterKeepsRecords(s, t, c.book, c.chart);
      AllParts(t);
    }
  }

  // -------------------------------------------------------------- period close

  /** Every active book has its own row for the period. */
  predicate Locked(s: State, p: nat) {
    forall book :: book in s.charts ==> (book, p) in s.controls
  }

  /** Creating the missing rows changes no active book's status. */
  lemma MaterializedKeepsInv(s: State, p: nat)
    requires Inv(s) && p < |s.periods|
    ensures Inv(Materialized(s, p)) && Locked(Materialized(s, p), p)
    ensures SameEffective(s, Materialized(s, p))
  {
    var t := Materialized(s, p);
    assert SameEffective(s, t);
    ControlOf(s);
    RecordsOf(s);
    ControlCarries(s, t);
    RecordsCarry(s, t);
    AllParts(t);
  }

  /** Closing one book's period changes that status and no other. */
  lemma BookClosedEffective(s: State, book: string, p: nat, control: Control)
    requires p < |s.periods| && book in s.charts && Locked(s, p)
    ensures var t := WithBookClosed(s, book, p, control);
            forall b, q :: b in s.charts && 0 <= q < |s.periods| ==>
              Effective(t, b, q) == if b == book && q == p then control.status else Effective(s, b, q)
    ensures var t := WithBookClosed(s, book, p, control);
            |t.periods| == |s.periods| && forall q :: 0 <= q < |s.periods| ==>
              && t.periods[q].code == s.periods[q].code
              && t.periods[q].start == s.periods[q].start && t.periods[q].end == s.periods[q].end
              && (q != p ==> t.periods[q] == s.periods[q])
  {
  }

  lemma AggregateIsLeastClosed(books: set<string>, controls: map<(string, nat), Control>, p: nat)
    requires forall book :: book in books ==> (book, p) in controls
    ensures AggregateStatus(books, controls, p) == HardClosed <==>
            books != {} && forall book :: book in books ==> controls[(book, p)].status == HardClosed
    ensures AggregateStatus(books, controls, p) == Open <==>
            books == {} || exists book :: book in books && controls[(book, p)].status == Open
  {
    var rows := set book | book in books && (book, p) in controls;
    assert rows == books;
  }

  lemma ClosedRowShows(s: State, book: string, p: nat, control: Control)
    requires p < |s.periods| && book in s.charts && Locked(s, p)
    ensures var t := WithBookClosed(s, book, p, control);
            && ShowsLeastClosed(t, p)
            && forall b, q :: b in s.charts && 0 <= q < |s.periods| ==>
                 Effective(t, b, q) == if b == book && q == p then control.status else Effective(s, b, q)
  {
    var t := WithBookClosed(s, book, p, control);
    BookClosedEffective(s, book, p, control);
    AggregateIsLeastClosed(t.charts.Keys, t.controls, p);
    assert forall b :: b in t.charts ==> Effective(t, b, p) == t.controls[(b, p)].status;
  }

  lemma BookClosedCalendar(s: State, book: string, p: nat, control: Control)
    requires p < |s.periods| && book in s.charts && Locked(s, p) && CalendarOk(s)
    ensures CalendarOk(WithBookClosed(s, book, p, control))
  {
    var t := WithBookClosed(s, book, p, control);
    BookClosedEffective(s, book, p, control);
    ClosedRowShows(s, book, p, control);
    forall q | 0 <= q < |t.periods| ensures ShowsLeastClosed(t, q) {
      if q != p {
        assert ShowsLeastClosed(s, q);
        assert forall b :: b in t.charts ==> Effective(t, b, q) == Effective(s, b, q);
      }
    }
  }

  lemma BookClosedControl(s: State, book: string, p: nat, control: Control)
    requires PeriodsOk(s) && OrderOk(s) && p < |s.periods| && book in s.charts && Locked(s, p)
    requires Effective(s, book, p) != HardClosed
    requires control.status == HardClosed ==> EarlierHard(s, book, p)
    ensures PeriodsOk(WithBookClosed(s, book, p, control)) && OrderOk(WithBookClosed(s, book, p, control))
  {
    var t := WithBookClosed(s, book, p, control);
    BookClosedEffective(s, book, p, control);
    forall b, q | b in t.charts && 0 <= q < |t.periods| && Effective(t, b, q) == HardClosed
      ensures EarlierHard(t, b, q)
    {
      assert EarlierHard(s, b, q);
    }
  }

  /** Journals and snapshots, after one more book period has been closed and
      its snapshot, if it is a hard close, has been stored. */
  lemma BookClosedRecords(s: State, t: State, book: string, p: nat)
    requires JournalsOk(s) && SnapshotsOk(s) && QuietOk(s) && book in s.charts && p < |s.periods|
    requires t.charts == s.charts && t.journals == s.journals && |t.periods| == |s.periods|
    requires forall q :: 0 <= q < |s.periods| ==>
               t.periods[q].start == s.periods[q].start && t.periods[q].end == s.periods[q].end
    requires forall b, q :: b in s.charts && 0 <= q < |s.periods| && (b != book || q != p) ==>
               Effective(t, b, q) == Effective(s, b, q)
    requires forall k :: k in t.snapshots && k != (book, p) ==> k in s.snapshots && t.snapshots[k] == s.snapshots[k]
    requires s.snapshots.Keys <= t.snapshots.Keys
    requires (book, p) in t.snapshots ==> SnapshotOk(t, book, p)
    requires Effective(t, book, p) == HardClosed ==> (book, p) in t.snapshots
    ensures JournalsOk(t) && SnapshotsOk(t) && QuietOk(t)
  {
    forall b, q | (b, q) in t.snapshots ensures SnapshotOk(t, b, q) {
      if (b, q) != (book, p) {
        assert SnapshotOk(s, b, q);
      }
    }
    forall j | j in t.journals ensures JournalOk(t, j) {
      assert JournalOk(s, j);
    }
  }

  lemma EarningsAreNotIncome(chart: Chart)
    requires WellFormedChart(chart)
    ensures !HasRole(chart, IncomeRoles())(RETAINED_EARNINGS)
  {
    CodeListed(chart, RETAINED_EARNINGS);
  }

  lemma JournalsOnChart(s: State, book: string, sel: Journal -> bool)
    requires JournalsOk(s) && book in s.charts
    requires forall j :: sel(j) ==> j.book == book
    ensures OnChart(s.charts[book], s.journals, sel)
  {
    forall j, l | j in s.journals && sel(j) && l in j.lines ensures Listed(s.charts[book], l.account) {
      assert JournalOk(s, j);
    }
  }

  lemma ClosingLineAccountsOk(chart: Chart, js: seq<Journal>, sel: Journal -> bool)
    ensures forall l :: l in ClosingLinesOf(IncomeRows(chart, js, sel)) ==>
              l.account == RETAINED_EARNINGS || HasRole(chart, IncomeRoles())(l.account)
  {
    ClosingAccounts(IncomeRows(chart, js, sel));
    KeepIncomeNet(chart, Rows(chart, js, sel), Every());
  }

  lemma ClosingJournalIsOk(s: State, book: string, p: nat)
    requires PeriodsOk(s) && book in s.charts && p < |s.periods|
    requires var closing := ClosingJournalOf(s, book, p);
             closing.lines != [] && InsertRefusal(s, closing, PeriodClosing).None?
    ensures JournalOk(s, ClosingJournalOf(s, book, p))
  {
    var closing := ClosingJournalOf(s, book, p);
    NoLineIsRefusedExactlyWhen(s.charts[book], closing.lines);
    ClosingLineAccountsOk(s.charts[book], s.journals, Through(book, s.periods[p].end));
  }

  /** The closing step keeps the invariant and clears the book's income. */
  lemma ClosingStepKeepsInv(s: State, book: string, p: nat)
    requires Inv(s) && book in s.charts && p < |s.periods|
    requires !WithClosingJournal(s, book, p).reply.Refused?
    ensures var t := WithClosingJournal(s, book, p).state;
            && Inv(t) && t == s.(journals := t.journals)
            && IncomeCleared(t, book, s.periods[p].end) && IncomeAccountsCleared(t, book, s.periods[p].end)
  {
    var closing, sel := ClosingJournalOf(s, book, p), Through(book, s.periods[p].end);
    assert Keeps(PeriodsPart, s) && Keeps(JournalsPart, s);
    EarningsAreNotIncome(s.charts[book]);
    JournalsOnChart(s, book, sel);
    IncomeClearedByClosing(s.charts[book], s.journals, closing, sel);
    if closing.lines != [] {
      ClosingJournalIsOk(s, book, p);
      InsertKeepsInv(s, closing, PeriodClosing);
    }
  }

  /** The snapshot is taken from the ledger as it stands, so it starts fresh. */
  lemma FrozenSnapshotOk(s: State, book: string, p: nat, key: Key)
    requires book in s.charts && p < |s.periods| && (book, p) in s.controls
    requires IncomeCleared(s, book, s.periods[p].end) && IncomeAccountsCleared(s, book, s.periods[p].end)
    ensures (book, p) in Frozen(s, book, p, key).snapshots && SnapshotOk(Frozen(s, book, p, key), book, p)
  {
  }

  /** Freezing is storing the snapshot and then closing the book's period. */
  function WithSnapshotOf(s: State, t: State): State {
    s.(snapshots := t.snapshots)
  }

  lemma SnapshotLeavesControl(s: State, u: State, book: string, p: nat)
    requires PeriodsOk(s) && CalendarOk(s) && OrderOk(s) && u == s.(snapshots := u.snapshots)
    requires book in s.charts && p < |s.periods| && Locked(s, p)
    requires Effective(s, book, p) != HardClosed && EarlierHard(s, book, p)
    ensures PeriodsOk(u) && CalendarOk(u) && OrderOk(u) && Locked(u, p)
    ensures Effective(u, book, p) != HardClosed && EarlierHard(u, book, p)
    ensures forall b, q :: b in s.charts && 0 <= q < |s.periods| ==> Effective(u, b, q) == Effective(s, b, q)
  {
    assert SameEffective(s, u);
    ControlCarries(s, u);
    forall q | 0 <= q < |s.periods| ensures Effective(u, book, q) == Effective(s, book, q) {}
  }

  lemma ClosedControl(u: State, t: State, book: string, p: nat, control: Control)
    requires PeriodsOk(u) && CalendarOk(u) && OrderOk(u)
    requires book in u.charts && p < |u.periods| && Locked(u, p) && t == WithBookClosed(u, book, p, control)
    requires Effective(u, book, p) != HardClosed && EarlierHard(u, book, p)
    ensures PeriodsOk(t) && CalendarOk(t) && OrderOk(t)
    ensures forall b, q :: b in u.charts && 0 <= q < |u.periods| && (b != book || q != p) ==>
              Effective(t, b, q) == Effective(u, b, q)
  {
    BookClosedCalendar(u, book, p, control);
    BookClosedControl(u, book, p, control);
    BookClosedEffective(u, book, p, control);
  }

  lemma FrozenControl(s: State, book: string, p: nat, key: Key)
    requires PeriodsOk(s) && CalendarOk(s) && OrderOk(s)
    requires book in s.charts && p < |s.periods| && Locked(s, p)
    requires Effective(s, book, p) != HardClosed && EarlierHard(s, book, p)
    ensures var t := Frozen(s, book, p, key);
            && PeriodsOk(t) && CalendarOk(t) && OrderOk(t)
            && (forall b, q :: b in s.charts && 0 <= q < |s.periods| && (b != book || q != p) ==>
                  Effective(t, b, q) == Effective(s, b, q))
  {
    var control := s.controls[(book, p)].(status := HardClosed);
    var u := WithSnapshotOf(s, Frozen(s, book, p, key));
    SnapshotLeavesControl(s, u, book, p);
    ClosedControl(u, Frozen(s, book, p, key), book, p, control);
  }

  lemma FrozenShape(s: State, book: string, p: nat, key: Key)
    requires book in s.charts && p < |s.periods| && (book, p) in s.controls
    ensures var t := Frozen(s, book, p, key);
            && t.charts == s.charts && t.journals == s.journals && |t.periods| == |s.periods|
            && (forall q :: 0 <= q < |s.periods| ==>
                  t.periods[q].start == s.periods[q].start && t.periods[q].end == s.periods[q].end)
            && (forall k :: k in t.snapshots && k != (book, p) ==>
                  k in s.snapshots && t.snapshots[k] == s.snapshots[k])
            && s.snapshots.Keys <= t.snapshots.Keys && (book, p) in t.snapshots
  {
  }

  lemma FrozenRecords(s: State, t: State, book: string, p: nat, key: Key)
    requires JournalsOk(s) && SnapshotsOk(s) && QuietOk(s)
    requires book in s.charts && p < |s.periods| && (book, p) in s.controls
    requires t == Frozen(s, book, p, key) && (book, p) in t.snapshots && SnapshotOk(t, book, p)
    requires forall b, q :: b in s.charts && 0 <= q < |s.periods| && (b != book || q != p) ==>
               Effective(t, b, q) == Effective(s, b, q)
    ensures JournalsOk(t) && SnapshotsOk(t) && QuietOk(t)
  {
    FrozenShape(s, book, p, key);
    BookClosedRecords(s, t, book, p);
  }

  lemma FrozenKeepsInv(s: State, book: string, p: nat, key: Key)
    requires Inv(s) && book in s.charts && p < |s.periods| && Locked(s, p)
    requires Effective(s, book, p) != HardClosed && EarlierHard(s, book, p)
    requires IncomeCleared(s, book, s.periods[p].end) && IncomeAccountsCleared(s, book, s.periods[p].end)
    ensures Inv(Frozen(s, book, p, key))
  {
    var t := Frozen(s, book, p, key);
    ControlOf(s);
    RecordsOf(s);
    FrozenControl(s, book, p, key);
    FrozenSnapshotOk(s, book, p, key);
    FrozenRecords(s, t, book, p, key);
    AllParts(t);
  }

  lemma SoftCloseKeepsInv(s: State, book: string, p: nat, key: Key)
    requires Inv(s) && book in s.charts && p < |s.periods| && Locked(s, p)
    requires Effective(s, book, p) != HardClosed
    ensures Inv(PersistSoftClose(s, book, p, key).state)
  {
    if !SoftKeyUsed(s, key) {
      var count := JournalCount(s.journals, Through(book, s.periods[p].end));
      var control := Control(SoftClosed, Some(SoftEvidence(key, count)));
      var t := WithBookClosed(s, book, p, control);
      ControlOf(s);
      RecordsOf(s);
      BookClosedCalendar(s, book, p, control);
      BookClosedControl(s, book, p, control);
      BookClosedEffective(s, book, p, control);
      BookClosedRecords(s, t, book, p);
      AllParts(t);
    }
  }

  /** Journals play no part in period control. */
  lemma JournalsLeaveControl(s: State, t: State, book: string, p: nat)
    requires t == s.(journals := t.journals) && book in s.charts && p < |s.periods| && Locked(s, p)
    requires Effective(s, book, p) != HardClosed && EarlierHard(s, book, p)
    ensures Locked(t, p) && Effective(t, book, p) != HardClosed && EarlierHard(t, book, p)
  {
    assert forall q :: 0 <= q < |t.periods| ==> Effective(t, book, q) == Effective(s, book, q);
  }

  lemma PostedThenFrozenKeepsInv(s: State, t: State, book: string, p: nat, key: Key)
    requires book in s.charts && p < |s.periods| && Locked(s, p)
    requires Effective(s, book, p) != HardClosed && EarlierHard(s, book, p)
    requires Inv(t) && t == s.(journals := t.journals)
    requires IncomeCleared(t, book, s.periods[p].end) && IncomeAccountsCleared(t, book, s.periods[p].end)
    ensures (book, p) in t.controls && Inv(Frozen(t, book, p, key))
  {
    JournalsLeaveControl(s, t, book, p);
    FrozenKeepsInv(t, book, p, key);
  }

  lemma PersistCloseKeepsInv(s: State, book: string, p: nat, key: Key)
    requires Inv(s) && book in s.charts && p < |s.periods| && Locked(s, p)
    requires Effective(s, book, p) != HardClosed && EarlierHard(s, book, p)
    requires !PersistClose(s, book, p, key).reply.Refused?
    ensures Inv(PersistClose(s, book, p, key).state)
  {
    ClosingStepKeepsInv(s, book, p);
    PostedThenFrozenKeepsInv(s, WithClosingJournal(s, book, p).state, book, p, key);
  }

  lemma CloseLockedKeepsInv(s: State, p: nat, c: Command)
    requires Inv(s) && c.Close? && c.status != Open && c.book in s.charts && p < |s.periods| && Locked(s, p)
    requires c.status == HardClosed ==> EarlierHard(s, c.book, p)
    requires !CloseLocked(s, p, c).reply.Refused?
    ensures Inv(CloseLocked(s, p, c).state)
  {
    var control := s.controls[(c.book, p)];
    if control.status != HardClosed && control.status != c.status {
      if c.status == SoftClosed {
        SoftCloseKeepsInv(s, c.book, p, c.key);
      } else {
        PersistCloseKeepsInv(s, c.book, p, c.key);
      }
    }
  }

  lemma CloseKeepsInv(s: State, c: Command)
    requires Inv(s) && c.Close? && Orderly(s, c)
    ensures Inv(CloseStep(s, c).state)
  {
    var found := FindPeriod(s.periods, c.code);
    if c.status != Open && c.book in s.charts && found.Some? {
      var p := found.value;
      var locked := Materialized(s, p);
      MaterializedKeepsInv(s, p);
      if !CloseLocked(locked, p, c).reply.Refused? {
        CloseLockedKeepsInv(locked, p, c);
      }
    }
  }

  // ------------------------------------------------------------ over all runs

  lemma StepKeepsInv(s: State, c: Command)
    requires Inv(s) && Orderly(s, c)
    ensures Inv(Step(s, c).state)
  {
    match c
    case Post(_, _, _, _, _, _) => PostKeepsInv(s, c);
    case Adjust(_, _, _, _, _, _, _) => AdjustKeepsInv(s, c);
    case Reverse(_, _, _, _, _) => ReverseKeepsInv(s, c);
    case OpenPeriod(_, _, _, _, _, _) => OpenKeepsInv(s, c);
    case Close(_, _, _, _, _) => CloseKeepsInv(s, c);
    case RegisterBook(_, _) => RegisterKeepsInv(s, c);
  }

  lemma {:induction false} RunKeepsInv(closingWriter: bool, commands: seq<Command>)
    requires OrderlyRun(EmptyState(closingWriter), commands)
    ensures Inv(Run(EmptyState(closingWriter), commands))
  {
    if commands != [] {
      var init := commands[..|commands| - 1];
      RunKeepsInv(closingWriter, init);
      StepKeepsInv(Run(EmptyState(closingWriter), init), commands[|commands| - 1]);
    } else {
      AllParts(EmptyState(closingWriter));
    }
  }
}
