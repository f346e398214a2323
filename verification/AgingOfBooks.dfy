/** The aging report over the books: its rows are the account's lines in the ledger, so
    its total is compared with the balance the ledger and its snapshots give. */
module AgingOfBooks {
  import opened Sums
  import opened JournalTables
  import opened ClosingJournal
  import opened BookStore
  import opened CloseInvariant
  import opened Statements
  import A = Aging

  // ------------------------------------------------------------------ the query

  function LinesOn(lines: seq<Line>, date: Date, code: string): seq<A.AgingRow> {
    if lines == [] then []
    else
      var l := lines[|lines| - 1];
      LinesOn(lines[..|lines| - 1], date, code) +
      if l.account == code then [A.AgingRow(date, l.debit, l.credit)] else []
  }

  /** WHERE book AND account AND accounting_date <= end AND journal_reference NOT LIKE the
      closing pattern. */
  function AgedLines(js: seq<Journal>, book: string, end: Date, code: string): seq<A.AgingRow> {
    if js == [] then []
    else
      var j := js[|js| - 1];
      AgedLines(js[..|js| - 1], book, end, code) +
      if j.book == book && j.date <= end && !IsClosing(j.ref) then LinesOn(j.lines, j.date, code) else []
  }

  /** ORDER BY accounting_date, increases first, and then in any order. */
  ghost predicate IsAgingQuery(
    s: State, book: string, end: Date, code: string, increaseIsDebit: bool, rows: seq<A.AgingRow>)
  {
    && multiset(rows) == multiset(AgedLines(s.journals, book, end, code))
    && A.RowsInOrder(rows) && A.IncreasesFirst(rows, increaseIsDebit)
  }

  function Signed(increaseIsDebit: bool, net: int): int {
    if increaseIsDebit then -net else net
  }

  /** The account's balance through a date, on its own side. */
  function Balance(s: State, book: string, date: Date, code: string, increaseIsDebit: bool): int {
    Signed(increaseIsDebit, LiveNet(s, book, date, Only(code)))
  }

  // ----------------------------------------------------------- rows and balances

  /** What a row dated by the day adds to the balance. */
  function Adds(increaseIsDebit: bool, day: Date): A.AgingRow -> int {
    (r: A.AgingRow) =>
      if r.date <= day then A.Increase(r, increaseIsDebit) - A.Decrease(r, increaseIsDebit) else 0
  }

  lemma {:induction false} NetThroughIsSum(rows: seq<A.AgingRow>, increaseIsDebit: bool, day: Date)
    ensures A.NetThrough(rows, increaseIsDebit, day) == Sum(rows, Adds(increaseIsDebit, day))
  {
    if rows != [] {
      NetThroughIsSum(rows[..|rows| - 1], increaseIsDebit, day);
    }
  }

  lemma {:induction false} LinesNet(lines: seq<Line>, date: Date, code: string, increaseIsDebit: bool, day: Date)
    ensures Sum(LinesOn(lines, date, code), Adds(increaseIsDebit, day)) ==
            if date <= day then Signed(increaseIsDebit, Sum(lines, NetIn(Only(code)))) else 0
  {
    if lines != [] {
      var init, l := lines[..|lines| - 1], lines[|lines| - 1];
      LinesNet(init, date, code, increaseIsDebit, day);
      if l.account == code {
        SumAppend(LinesOn(init, date, code), A.AgingRow(date, l.debit, l.credit), Adds(increaseIsDebit, day));
      } else {
        assert LinesOn(lines, date, code) == LinesOn(init, date, code);
      }
    }
  }

  /** A closing journal has no line on the account. */
  predicate ClosingsLeave(js: seq<Journal>, book: string, code: string) {
    forall j, l :: j in js && j.book == book && IsClosing(j.ref) && l in j.lines ==> l.account != code
  }

  lemma ClosingNetIsZero(js: seq<Journal>, j: Journal, book: string, code: string)
    requires ClosingsLeave(js, book, code) && j in js && j.book == book && IsClosing(j.ref)
    ensures Sum(j.lines, NetIn(Only(code))) == 0
  {
    SumNil(j.lines, NetIn(Only(code)));
  }

  lemma LastJournalNet(js: seq<Journal>, book: string, end: Date, code: string, increaseIsDebit: bool, day: Date)
    requires js != [] && ClosingsLeave(js, book, code) && day <= end
    ensures var init, j := js[..|js| - 1], js[|js| - 1];
            Sum(AgedLines(js, book, end, code), Adds(increaseIsDebit, day)) ==
            Sum(AgedLines(init, book, end, code), Adds(increaseIsDebit, day)) +
            Signed(increaseIsDebit, Picked(Through(book, day), NetIn(Only(code)))(j))
  {
    var init, j := js[..|js| - 1], js[|js| - 1];
    var earlier, own := AgedLines(init, book, end, code), LinesOn(j.lines, j.date, code);
    assert j in js;
    LinesNet(j.lines, j.date, code, increaseIsDebit, day);
    if j.book == book && IsClosing(j.ref) {
      ClosingNetIsZero(js, j, book, code);
    }
    if j.book == book && j.date <= end && !IsClosing(j.ref) {
      SumConcat(earlier, own, Adds(increaseIsDebit, day));
    } else {
      assert AgedLines(js, book, end, code) == earlier;
    }
  }

  lemma {:induction false} AgedNet(
      js: seq<Journal>, book: string, end: Date, code: string, increaseIsDebit: bool, day: Date)
    requires ClosingsLeave(js, book, code) && day <= end
    ensures Sum(AgedLines(js, book, end, code), Adds(increaseIsDebit, day)) ==
            Signed(increaseIsDebit, Sum(js, Picked(Through(book, day), NetIn(Only(code)))))
  {
    if js != [] {
      var init, j := js[..|js| - 1], js[|js| - 1];
      assert j in js && forall k :: k in init ==> k in js;
      AgedNet(init, book, end, code, increaseIsDebit, day);
      LastJournalNet(js, book, end, code, increaseIsDebit, day);
    }
  }

  lemma {:induction false} LinesShape(lines: seq<Line>, date: Date, code: string)
    requires AllOneSided(lines)
    ensures forall r :: r in LinesOn(lines, date, code) ==> A.OneSidedRow(r) && r.date == date
  {
    if lines != [] {
      var init, l := lines[..|lines| - 1], lines[|lines| - 1];
      assert l in lines && forall k :: k in init ==> k in lines;
      LinesShape(init, date, code);
    }
  }

  lemma {:induction false} AgedRowsShape(js: seq<Journal>, book: string, end: Date, code: string)
    requires forall j :: j in js ==> AllOneSided(j.lines)
    ensures forall r :: r in AgedLines(js, book, end, code) ==> A.OneSidedRow(r) && r.date <= end
  {
    if js != [] {
      var init, j := js[..|js| - 1], js[|js| - 1];
      assert j in js && forall k :: k in init ==> k in js;
      AgedRowsShape(init, book, end, code);
      LinesShape(j.lines, j.date, code);
    }
  }

  // -------------------------------------------------------------- over the books

  /** An account that closing leaves alone, as a receivable or a payable is. */
  predicate NotClosed(s: State, book: string, code: string)
    requires book in s.charts
  {
    code != RETAINED_EARNINGS && !HasRole(s.charts[book], IncomeRoles())(code)
  }

  lemma ClosingsLeaveIt(s: State, book: string, code: string)
    requires SoundLedger(s) && book in s.charts && NotClosed(s, book, code)
    ensures ClosingsLeave(s.journals, book, code)
  {
    LedgerOf(s);
    forall j, l | j in s.journals && j.book == book && IsClosing(j.ref) && l in j.lines ensures l.account != code {
      assert JournalOk(s, j);
      OnlyClosersClose(s, j);
    }
  }

  /** On every day the rows of the report net to the account's balance in the ledger. */
  lemma RowsAreTheBalance(
      s: State, book: string, end: Date, code: string, increaseIsDebit: bool, rows: seq<A.AgingRow>, day: Date)
    requires SoundLedger(s) && book in s.charts && NotClosed(s, book, code) && day <= end
    requires IsAgingQuery(s, book, end, code, increaseIsDebit, rows)
    ensures A.NetThrough(rows, increaseIsDebit, day) == Balance(s, book, day, code, increaseIsDebit)
  {
    ClosingsLeaveIt(s, book, code);
    NetThroughIsSum(rows, increaseIsDebit, day);
    SumIgnoresOrder(rows, AgedLines(s.journals, book, end, code), Adds(increaseIsDebit, day));
    AgedNet(s.journals, book, end, code, increaseIsDebit, day);
  }

  lemma RowsAreSound(s: State, book: string, end: Date, code: string, increaseIsDebit: bool, rows: seq<A.AgingRow>)
    requires SoundLedger(s) && IsAgingQuery(s, book, end, code, increaseIsDebit, rows)
    ensures A.OneSidedRows(rows) && forall r :: r in rows ==> r.date <= end
  {
    LedgerOf(s);
    forall j | j in s.journals ensures AllOneSided(j.lines) {
      assert JournalOk(s, j);
    }
    AgedRowsShape(s.journals, book, end, code);
    forall r | r in rows ensures r in AgedLines(s.journals, book, end, code) {
      assert r in multiset(rows);
    }
  }

  lemma {:induction false} NetThroughAll(rows: seq<A.AgingRow>, increaseIsDebit: bool, end: Date, n: nat)
    requires n <= |rows| && forall r :: r in rows ==> r.date <= end
    ensures A.NetThrough(rows[..n], increaseIsDebit, end) == A.NetAfter(rows, increaseIsDebit, n)
  {
    if n > 0 {
      NetThroughAll(rows, increaseIsDebit, end, n - 1);
      assert rows[..n][..n - 1] == rows[..n - 1] && rows[n - 1] in rows;
    }
  }

  /** The balance was below the floor at the end of no day up to a date. */
  ghost predicate NeverBelow(s: State, book: string, end: Date, code: string, increaseIsDebit: bool, floor: int) {
    forall day :: day <= end ==> Balance(s, book, day, code, increaseIsDebit) >= floor
  }

  ghost predicate NeverOverdrawn(s: State, book: string, end: Date, code: string, increaseIsDebit: bool) {
    NeverBelow(s, book, end, code, increaseIsDebit, 0)
  }

  lemma DayEndsAreBalances(
      s: State, book: string, end: Date, code: string, increaseIsDebit: bool, rows: seq<A.AgingRow>, floor: int)
    requires SoundLedger(s) && book in s.charts && NotClosed(s, book, code) && floor <= 0
    requires IsAgingQuery(s, book, end, code, increaseIsDebit, rows)
    ensures A.NeverBelow(rows, increaseIsDebit, floor) <==> NeverBelow(s, book, end, code, increaseIsDebit, floor)
  {
    RowsAreSound(s, book, end, code, increaseIsDebit, rows);
    A.DayEndsDecide(rows, increaseIsDebit, floor);
    if A.NeverBelow(rows, increaseIsDebit, floor) {
      forall day | day <= end ensures Balance(s, book, day, code, increaseIsDebit) >= floor {
        RowsAreTheBalance(s, book, end, code, increaseIsDebit, rows, day);
        var n := A.NetThroughIsPrefix(rows, increaseIsDebit, day);
      }
    }
    if NeverBelow(s, book, end, code, increaseIsDebit, floor) {
      forall r | r in rows ensures A.NetThrough(rows, increaseIsDebit, r.date) >= floor {
        RowsAreTheBalance(s, book, end, code, increaseIsDebit, rows, r.date);
      }
    }
  }

  lemma NetIsTheBalance(s: State, book: string, end: Date, code: string, increaseIsDebit: bool, rows: seq<A.AgingRow>)
    requires SoundLedger(s) && book in s.charts && NotClosed(s, book, code)
    requires IsAgingQuery(s, book, end, code, increaseIsDebit, rows)
    ensures A.Net(rows, increaseIsDebit) == Balance(s, book, end, code, increaseIsDebit)
  {
    RowsAreSound(s, book, end, code, increaseIsDebit, rows);
    RowsAreTheBalance(s, book, end, code, increaseIsDebit, rows, end);
    NetThroughAll(rows, increaseIsDebit, end, |rows|);
    assert rows[..|rows|] == rows;
  }

  /** After every orderly run the outstanding total of the aging report through a date
      is the account's balance in the ledger exactly when that balance was negative at
      the end of no day up to the date. */
  lemma AgingTiesExactlyWhen(
      closingWriter: bool, commands: seq<Command>, book: string, end: Date, code: string, increaseIsDebit: bool,
      rows: seq<A.AgingRow>)
    requires OrderlyRun(EmptyState(closingWriter), commands)
    requires var s := Run(EmptyState(closingWriter), commands);
             book in s.charts && NotClosed(s, book, code) && IsAgingQuery(s, book, end, code, increaseIsDebit, rows)
    ensures var s := Run(EmptyState(closingWriter), commands);
            A.Total(A.OpenItems(rows, increaseIsDebit)) == Balance(s, book, end, code, increaseIsDebit) <==>
            NeverOverdrawn(s, book, end, code, increaseIsDebit)
  {
    var s := Run(EmptyState(closingWriter), commands);
    RunKeepsInv(closingWriter, commands);
    RowsAreSound(s, book, end, code, increaseIsDebit, rows);
    NetIsTheBalance(s, book, end, code, increaseIsDebit, rows);
    DayEndsAreBalances(s, book, end, code, increaseIsDebit, rows, 0);
    A.DayEndsDecide(rows, increaseIsDebit, 0);
    A.TotalIsBalanceExactlyWhen(rows, increaseIsDebit);
  }

  lemma {:induction false} SomeDayBefore(rows: seq<A.AgingRow>, end: Date) returns (day: Date)
    ensures day <= end && A.NetThrough(rows, true, day) == 0
    ensures forall r :: r in rows ==> day < r.date
  {
    if rows == [] {
      day := end;
    } else {
      var last := rows[|rows| - 1];
      day := SomeDayBefore(rows[..|rows| - 1], if last.date <= end then last.date - 1 else end);
      assert forall r :: r in rows ==> r in rows[..|rows| - 1] || r == last;
    }
  }

  /** Never to have been lower than at the end, told by the rows and by the books. */
  lemma LowestAtTheEnd(s: State, book: string, end: Date, code: string, rows: seq<A.AgingRow>)
    requires SoundLedger(s) && book in s.charts && NotClosed(s, book, code)
    requires IsAgingQuery(s, book, end, code, true, rows)
    ensures A.NeverBelow(rows, true, A.Net(rows, true)) <==>
            NeverBelow(s, book, end, code, true, Balance(s, book, end, code, true))
  {
    NetIsTheBalance(s, book, end, code, true, rows);
    var floor := A.Net(rows, true);
    if floor <= 0 {
      DayEndsAreBalances(s, book, end, code, true, rows, floor);
    } else {
      var day := SomeDayBefore(rows, end);
      RowsAreTheBalance(s, book, end, code, true, rows, day);
      assert A.NetAfter(rows, true, 0) == 0;
    }
  }

  /** After every orderly run the outstanding total less the unapplied credit that the
      report shows is the receivable's balance in the ledger exactly when that balance
      was negative at the end of no day, or at the end of none lower than at the last. */
  lemma ReceivableTiesExactlyWhen(
      closingWriter: bool, commands: seq<Command>, book: string, end: Date, code: string, rows: seq<A.AgingRow>)
    requires OrderlyRun(EmptyState(closingWriter), commands)
    requires var s := Run(EmptyState(closingWriter), commands);
             book in s.charts && NotClosed(s, book, code) && IsAgingQuery(s, book, end, code, true, rows)
    ensures var s := Run(EmptyState(closingWriter), commands);
            var balance := Balance(s, book, end, code, true);
            A.Total(A.OpenItems(rows, true)) - A.UnappliedCredit(rows) == balance <==>
            NeverOverdrawn(s, book, end, code, true) || NeverBelow(s, book, end, code, true, balance)
  {
    var s := Run(EmptyState(closingWriter), commands);
    RunKeepsInv(closingWriter, commands);
    RowsAreSound(s, book, end, code, true, rows);
    NetIsTheBalance(s, book, end, code, true, rows);
    DayEndsAreBalances(s, book, end, code, true, rows, 0);
    LowestAtTheEnd(s, book, end, code, rows);
    A.ReceivableTiesExactlyWhen(rows);
  }

  /** The unapplied credit that the receivable report shows is the whole of a negative
      balance, whatever is open beside it, and nothing otherwise. */
  lemma UnappliedCreditIsTheOverdraft(
      closingWriter: bool, commands: seq<Command>, book: string, end: Date, code: string, rows: seq<A.AgingRow>)
    requires OrderlyRun(EmptyState(closingWriter), commands)
    requires var s := Run(EmptyState(closingWriter), commands);
             book in s.charts && NotClosed(s, book, code) && IsAgingQuery(s, book, end, code, true, rows)
    ensures var balance := Balance(Run(EmptyState(closingWriter), commands), book, end, code, true);
            A.UnappliedCredit(rows) == if balance < 0 then -balance else 0
  {
    RunKeepsInv(closingWriter, commands);
    NetIsTheBalance(Run(EmptyState(closingWriter), commands), book, end, code, true, rows);
  }

  // --------------------------------------------- the outstanding total in the books

  lemma SomeDayIsLowest(
      s: State, book: string, end: Date, code: string, increaseIsDebit: bool, rows: seq<A.AgingRow>, lowest: int)
    requires SoundLedger(s) && book in s.charts && NotClosed(s, book, code)
    requires IsAgingQuery(s, book, end, code, increaseIsDebit, rows)
    requires lowest < 0 && A.LowestNet(rows, increaseIsDebit, |rows|) == lowest
    ensures exists day :: day <= end && Balance(s, book, day, code, increaseIsDebit) == lowest
  {
    var at := A.LowestNetIsLowest(rows, increaseIsDebit, |rows|);
    DayEndsAreBalances(s, book, end, code, increaseIsDebit, rows, lowest);
    DayEndsAreBalances(s, book, end, code, increaseIsDebit, rows, lowest + 1);
    assert !A.NeverBelow(rows, increaseIsDebit, lowest + 1);
  }

  /** After every orderly run the outstanding total is the largest rise of the account's
      balance up to the report's date, from nothing or from the end of any day. */
  lemma OutstandingIsTheLargestRise(
      closingWriter: bool, commands: seq<Command>, book: string, end: Date, code: string, increaseIsDebit: bool,
      rows: seq<A.AgingRow>)
    requires OrderlyRun(EmptyState(closingWriter), commands)
    requires var s := Run(EmptyState(closingWriter), commands);
             book in s.charts && NotClosed(s, book, code) && IsAgingQuery(s, book, end, code, increaseIsDebit, rows)
    ensures var s := Run(EmptyState(closingWriter), commands);
            var total, balance := A.Total(A.OpenItems(rows, increaseIsDebit)),
                                  Balance(s, book, end, code, increaseIsDebit);
            && total >= balance
            && (forall day :: day <= end ==> total >= balance - Balance(s, book, day, code, increaseIsDebit))
            && (total == balance ||
                exists day :: day <= end && total == balance - Balance(s, book, day, code, increaseIsDebit))
  {
    var s := Run(EmptyState(closingWriter), commands);
    RunKeepsInv(closingWriter, commands);
    RowsAreSound(s, book, end, code, increaseIsDebit, rows);
    NetIsTheBalance(s, book, end, code, increaseIsDebit, rows);
    A.TotalIsReflectedNet(rows, increaseIsDebit);
    var lowest := A.LowestNet(rows, increaseIsDebit, |rows|);
    var at := A.LowestNetIsLowest(rows, increaseIsDebit, |rows|);
    DayEndsAreBalances(s, book, end, code, increaseIsDebit, rows, lowest);
    assert A.NeverBelow(rows, increaseIsDebit, lowest);
    if lowest < 0 {
      SomeDayIsLowest(s, book, end, code, increaseIsDebit, rows, lowest);
    }
  }

  // ------------------------------------------------------- the buckets in the books

  /** The part of a row dated on or after a day that increases the balance. */
  function IncreaseFrom(increaseIsDebit: bool, c: Date): A.AgingRow -> int {
    (r: A.AgingRow) => if r.date >= c then A.Increase(r, increaseIsDebit) else 0
  }

  function From(book: string, c: Date, end: Date): Journal -> bool {
    (j: Journal) => j.book == book && c <= j.date <= end
  }

  /** What the ledger adds to the account on its own side over these days. */
  function Raised(s: State, book: string, c: Date, end: Date, code: string, increaseIsDebit: bool): int {
    SideTotal(s.journals, From(book, c, end), if increaseIsDebit then Dr else Cr, code)
  }

  lemma {:induction false} IncreasesAreASum(rows: seq<A.AgingRow>, increaseIsDebit: bool, c: Date)
    ensures A.IncreasesSince(rows, increaseIsDebit, c) == Sum(rows, IncreaseFrom(increaseIsDebit, c))
  {
    if rows != [] {
      IncreasesAreASum(rows[..|rows| - 1], increaseIsDebit, c);
    }
  }

  lemma {:induction false} LinesRaise(lines: seq<Line>, date: Date, code: string, increaseIsDebit: bool, c: Date)
    ensures Sum(LinesOn(lines, date, code), IncreaseFrom(increaseIsDebit, c)) ==
            if date >= c then Sum(lines, LineIn(if increaseIsDebit then Dr else Cr, Only(code))) else 0
  {
    if lines != [] {
      var init, l := lines[..|lines| - 1], lines[|lines| - 1];
      LinesRaise(init, date, code, increaseIsDebit, c);
      if l.account == code {
        SumAppend(LinesOn(init, date, code), A.AgingRow(date, l.debit, l.credit), IncreaseFrom(increaseIsDebit, c));
      } else {
        assert LinesOn(lines, date, code) == LinesOn(init, date, code);
      }
    }
  }

  lemma ClosingRaisesNothing(js: seq<Journal>, j: Journal, book: string, code: string, side: Side)
    requires ClosingsLeave(js, book, code) && j in js && j.book == book && IsClosing(j.ref)
    ensures Sum(j.lines, LineIn(side, Only(code))) == 0
  {
    SumNil(j.lines, LineIn(side, Only(code)));
  }

  lemma {:induction false} AgedIncreases(
      js: seq<Journal>, book: string, end: Date, code: string, increaseIsDebit: bool, c: Date)
    requires ClosingsLeave(js, book, code)
    ensures Sum(AgedLines(js, book, end, code), IncreaseFrom(increaseIsDebit, c)) ==
            SideTotal(js, From(book, c, end), if increaseIsDebit then Dr else Cr, code)
  {
    if js != [] {
      var init, j := js[..|js| - 1], js[|js| - 1];
      var side := if increaseIsDebit then Dr else Cr;
      assert j in js && forall k :: k in init ==> k in js;
      AgedIncreases(init, book, end, code, increaseIsDebit, c);
      LinesRaise(j.lines, j.date, code, increaseIsDebit, c);
      if j.book == book && IsClosing(j.ref) {
        ClosingRaisesNothing(js, j, book, code, side);
      }
      if j.book == book && j.date <= end && !IsClosing(j.ref) {
        SumConcat(AgedLines(init, book, end, code), LinesOn(j.lines, j.date, code), IncreaseFrom(increaseIsDebit, c));
      } else {
        assert AgedLines(js, book, end, code) == AgedLines(init, book, end, code);
      }
    }
  }

  /** The increases in the rows since a day are what the ledger adds on that side. */
  lemma IncreasesAreRaised(
      s: State, book: string, end: Date, code: string, increaseIsDebit: bool, rows: seq<A.AgingRow>, c: Date)
    requires SoundLedger(s) && book in s.charts && NotClosed(s, book, code)
    requires IsAgingQuery(s, book, end, code, increaseIsDebit, rows)
    ensures A.IncreasesSince(rows, increaseIsDebit, c) == Raised(s, book, c, end, code, increaseIsDebit)
  {
    ClosingsLeaveIt(s, book, code);
    IncreasesAreASum(rows, increaseIsDebit, c);
    SumIgnoresOrder(rows, AgedLines(s.journals, book, end, code), IncreaseFrom(increaseIsDebit, c));
    AgedIncreases(s.journals, book, end, code, increaseIsDebit, c);
  }

  /** The four buckets as differences of what is open in the last 30, 60 and 90 days: the
      total, or all that these days added when that is less. */
  predicate BucketsFollow(items: seq<A.OpenItem>, end: Date, last30: int, last60: int, last90: int) {
    var total := A.Total(items);
    && A.InBucket(items, end, A.Current) == A.Min(total, last30)
    && A.InBucket(items, end, A.Days31To60) == A.Min(total, last60) - A.Min(total, last30)
    && A.InBucket(items, end, A.Days61To90) == A.Min(total, last90) - A.Min(total, last60)
    && A.InBucket(items, end, A.DaysOver90) == total - A.Min(total, last90)
  }

  lemma BucketsFollowRows(rows: seq<A.AgingRow>, increaseIsDebit: bool, end: Date)
    requires A.OneSidedRows(rows) && A.RowsInOrder(rows)
    ensures BucketsFollow(A.OpenItems(rows, increaseIsDebit), end, A.IncreasesSince(rows, increaseIsDebit, end - 30),
              A.IncreasesSince(rows, increaseIsDebit, end - 60), A.IncreasesSince(rows, increaseIsDebit, end - 90))
  {
    A.TotalIsReflectedNet(rows, increaseIsDebit);
    A.BucketsInClosedForm(rows, increaseIsDebit, end);
  }

  /** After every orderly run the four buckets follow from the outstanding total and what
      the ledger added to the account in the last 30, 60 and 90 days. */
  lemma BucketsInTheBooks(
      closingWriter: bool, commands: seq<Command>, book: string, end: Date, code: string, increaseIsDebit: bool,
      rows: seq<A.AgingRow>)
    requires OrderlyRun(EmptyState(closingWriter), commands)
    requires var s := Run(EmptyState(closingWriter), commands);
             book in s.charts && NotClosed(s, book, code) && IsAgingQuery(s, book, end, code, increaseIsDebit, rows)
    ensures var s := Run(EmptyState(closingWriter), commands);
            BucketsFollow(A.OpenItems(rows, increaseIsDebit), end,
              Raised(s, book, end - 30, end, code, increaseIsDebit),
              Raised(s, book, end - 60, end, code, increaseIsDebit),
              Raised(s, book, end - 90, end, code, increaseIsDebit))
  {
    var s := Run(EmptyState(closingWriter), commands);
    RunKeepsInv(closingWriter, commands);
    RowsAreSound(s, book, end, code, increaseIsDebit, rows);
    BucketsFollowRows(rows, increaseIsDebit, end);
    IncreasesAreRaised(s, book, end, code, increaseIsDebit, rows, end - 30);
    IncreasesAreRaised(s, book, end, code, increaseIsDebit, rows, end - 60);
    IncreasesAreRaised(s, book, end, code, increaseIsDebit, rows, end - 90);
  }

  /** For a hard-closed period that balance is the one its snapshot holds. */
  lemma AgedBalanceIsSnapshotBalance(s: State, book: string, p: nat, code: string)
    requires Inv(s) && (book, p) in s.snapshots
    ensures p < |s.periods|
    ensures Balance(s, book, s.periods[p].end, code, true) == -Sum(s.snapshots[(book, p)].rows, RowNet(Only(code)))
    ensures Balance(s, book, s.periods[p].end, code, false) == Sum(s.snapshots[(book, p)].rows, RowNet(Only(code)))
  {
    SnapshotNetIsLive(s, book, p, Only(code));
  }
}
