/** The journal a hard close posts: it clears the income accounts of one book
    into retained earnings. */
module ClosingJournal {
  import opened Sums
  import opened JournalTables

  const RETAINED_EARNINGS := "310100"
  const RETAINED_EARNINGS_ROLE := "retained_earnings"

  function IncomeRoles(): set<string> {
    {"usage_revenue", "write_off_expense"}
  }

  /** One row of the closer's income query. */
  datatype IncomeRow = IncomeRow(account: string, role: string, debit: int, credit: int)

  function IncomeNet(accounts: string -> bool): IncomeRow -> int {
    (r: IncomeRow) => if accounts(r.account) then r.credit - r.debit else 0
  }

  function KeepIncome(chart: Chart, rows: seq<Row>): seq<IncomeRow> {
    if rows == [] then []
    else
      var last := rows[|rows| - 1];
      KeepIncome(chart, rows[..|rows| - 1]) +
      if HasRole(chart, IncomeRoles())(last.account)
      then [IncomeRow(last.account, Lookup(chart, last.account).value.role.value, last.debit, last.credit)]
      else []
  }

  /** The grouped balances of the accounts whose role is an income role. */
  function IncomeRows(chart: Chart, js: seq<Journal>, sel: Journal -> bool): seq<IncomeRow> {
    KeepIncome(chart, Rows(chart, js, sel))
  }

  /** The clearing line of one income balance. */
  function ClearingLine(number: int, row: IncomeRow): Line {
    var net := row.credit - row.debit;
    if net > 0 then Line(number, row.account, row.role, net, 0)
    else Line(number, row.account, row.role, 0, -net)
  }

  /** Clearing lines for every income balance that is not already zero. */
  function ClearingLines(rows: seq<IncomeRow>): seq<Line> {
    if rows == [] then []
    else
      var earlier, last := ClearingLines(rows[..|rows| - 1]), rows[|rows| - 1];
      if last.credit == last.debit then earlier
      else earlier + [ClearingLine(|earlier| + 1, last)]
  }

  function Earnings(rows: seq<IncomeRow>): int {
    Sum(rows, IncomeNet(Every()))
  }

  /** The line that parks the summed net in retained earnings, when there is any. */
  function PlugLine(number: int, earnings: int): seq<Line> {
    if earnings > 0 then [Line(number, RETAINED_EARNINGS, RETAINED_EARNINGS_ROLE, 0, earnings)]
    else if earnings < 0 then [Line(number, RETAINED_EARNINGS, RETAINED_EARNINGS_ROLE, -earnings, 0)]
    else []
  }

  /** The lines of the closing journal; empty means no journal is posted. */
  function ClosingLinesOf(rows: seq<IncomeRow>): seq<Line> {
    var clearing := ClearingLines(rows);
    if clearing == [] then [] else clearing + PlugLine(|clearing| + 1, Earnings(rows))
  }

  datatype ClosingOutcome = NothingToClose | MappingMissing | ToPost(lines: seq<Line>)

  lemma ClearOneMore(rows: seq<IncomeRow>, n: nat)
    requires n < |rows|
    ensures ClearingLines(rows[..n + 1]) ==
            if rows[n].credit == rows[n].debit then ClearingLines(rows[..n])
            else ClearingLines(rows[..n]) + [ClearingLine(|ClearingLines(rows[..n])| + 1, rows[n])]
    ensures Earnings(rows[..n + 1]) == Earnings(rows[..n]) + rows[n].credit - rows[n].debit
  {
    assert rows[..n + 1][..n] == rows[..n];
  }

  /** The closer's loop. It asks for the retained-earnings mapping only after
      the loop has found something to clear. */
  method BuildClosingLines(rows: seq<IncomeRow>, retainedEarningsMapped: bool) returns (outcome: ClosingOutcome)
    ensures outcome ==
            if ClosingLinesOf(rows) == [] then NothingToClose
            else if !retainedEarningsMapped then MappingMissing
            else ToPost(ClosingLinesOf(rows))
  {
    var lines: seq<Line> := [];
    var retained := 0;
    for i := 0 to |rows|
      invariant lines == ClearingLines(rows[..i])
      invariant retained == Earnings(rows[..i])
    {
      ClearOneMore(rows, i);
      var net := rows[i].credit - rows[i].debit;
      if net == 0 {
        continue;
      }
      var number := |lines| + 1;
      if net > 0 {
        lines := lines + [Line(number, rows[i].account, rows[i].role, net, 0)];
      } else {
        lines := lines + [Line(number, rows[i].account, rows[i].role, 0, -net)];
      }
      retained := retained + net;
    }
    assert rows[..|rows|] == rows;
    if lines == [] {
      return NothingToClose;
    }
    if !retainedEarningsMapped {
      return MappingMissing;
    }
    if retained > 0 {
      lines := lines + [Line(|lines| + 1, RETAINED_EARNINGS, RETAINED_EARNINGS_ROLE, 0, retained)];
    } else if retained < 0 {
      lines := lines + [Line(|lines| + 1, RETAINED_EARNINGS, RETAINED_EARNINGS_ROLE, -retained, 0)];
    }
    return ToPost(lines);
  }

  // ------------------------------------------------------ shape and balance

  lemma LoneLineUnbalanced(lines: seq<Line>)
    ensures |lines| == 1 && OneSided(lines[0]) ==> !Balanced(lines)
  {
    if |lines| == 1 {
      SumAppend([], lines[0], NetIn(Every()));
      assert [] + [lines[0]] == lines;
    }
  }

  lemma {:induction false} ClearingNet(rows: seq<IncomeRow>, accounts: string -> bool)
    ensures Sum(ClearingLines(rows), NetIn(accounts)) == -Sum(rows, IncomeNet(accounts))
  {
    if rows != [] {
      var init, last := rows[..|rows| - 1], rows[|rows| - 1];
      ClearingNet(init, accounts);
      if last.credit != last.debit {
        SumAppend(ClearingLines(init), ClearingLine(|ClearingLines(init)| + 1, last), NetIn(accounts));
      }
    }
  }

  lemma {:induction false} ClearingShape(rows: seq<IncomeRow>)
    ensures Numbered(ClearingLines(rows)) && AllOneSided(ClearingLines(rows))
    ensures ClearingLines(rows) == [] <==> forall r :: r in rows ==> r.credit == r.debit
  {
    if rows != [] {
      var init, last := rows[..|rows| - 1], rows[|rows| - 1];
      ClearingShape(init);
      assert rows == init + [last];
    }
  }

  lemma {:induction false} ClearingAccounts(rows: seq<IncomeRow>)
    ensures forall l :: l in ClearingLines(rows) ==> exists r :: r in rows && r.account == l.account
  {
    if rows != [] {
      var init, last := rows[..|rows| - 1], rows[|rows| - 1];
      ClearingAccounts(init);
      assert rows == init + [last];
      forall l | l in ClearingLines(rows) ensures exists r :: r in rows && r.account == l.account {
        if l in ClearingLines(init) {
          var r :| r in init && r.account == l.account;
          assert r in rows;
        } else {
          assert last in rows && last.account == l.account;
        }
      }
    }
  }

  /** What the closing lines do to any set of accounts: they take away the
      income balances and put the summed net on retained earnings. */
  lemma ClosingNet(rows: seq<IncomeRow>, accounts: string -> bool)
    ensures Sum(ClosingLinesOf(rows), NetIn(accounts)) ==
            (if accounts(RETAINED_EARNINGS) then Earnings(rows) else 0) - Sum(rows, IncomeNet(accounts))
  {
    ClearingNet(rows, accounts);
    ClearingShape(rows);
    var clearing := ClearingLines(rows);
    var plug := PlugLine(|clearing| + 1, Earnings(rows));
    if clearing == [] {
      SumNil(rows, IncomeNet(accounts));
      SumNil(rows, IncomeNet(Every()));
    } else if plug != [] {
      SumAppend(clearing, plug[0], NetIn(accounts));
    } else {
      assert clearing + plug == clearing;
    }
  }

  lemma ClosingShape(rows: seq<IncomeRow>)
    ensures Numbered(ClosingLinesOf(rows)) && AllOneSided(ClosingLinesOf(rows))
    ensures ClosingLinesOf(rows) == [] <==> forall r :: r in rows ==> r.credit == r.debit
  {
    ClearingShape(rows);
  }

  lemma ClosingAccounts(rows: seq<IncomeRow>)
    ensures forall l :: l in ClosingLinesOf(rows) ==>
              l.account == RETAINED_EARNINGS || exists r :: r in rows && r.account == l.account
  {
    ClearingAccounts(rows);
  }

  /** Rows with something to clear, in their order. */
  function Uncleared(rows: seq<IncomeRow>): seq<IncomeRow> {
    if rows == [] then []
    else
      var last := rows[|rows| - 1];
      Uncleared(rows[..|rows| - 1]) + if last.credit == last.debit then [] else [last]
  }

  /** One line for each balance that is not zero: on its account and in its role, on
      the side that is the smaller one, for the difference. */
  predicate Clears(line: Line, row: IncomeRow) {
    && line.account == row.account && line.role == row.role
    && row.debit + line.debit == row.credit + line.credit && OneSided(line)
  }

  lemma {:induction false} EachIsCleared(rows: seq<IncomeRow>)
    ensures |ClearingLines(rows)| == |Uncleared(rows)|
    ensures forall k :: 0 <= k < |Uncleared(rows)| ==> Clears(ClearingLines(rows)[k], Uncleared(rows)[k])
  {
    if rows != [] {
      EachIsCleared(rows[..|rows| - 1]);
    }
  }

  /** The lines of the closing journal one by one: each uncleared balance in its
      order, and then the one line on retained earnings, if any. */
  lemma ClosesOneByOne(rows: seq<IncomeRow>)
    ensures var lines, uncleared := ClosingLinesOf(rows), Uncleared(rows);
            && |uncleared| <= |lines| <= |uncleared| + 1
            && (forall k :: 0 <= k < |uncleared| ==> Clears(lines[k], uncleared[k]))
            && (|lines| > |uncleared| ==>
                  lines[|uncleared|].account == RETAINED_EARNINGS && lines[|uncleared|].role == RETAINED_EARNINGS_ROLE)
  {
    EachIsCleared(rows);
  }

  /** The closing journal is empty or a well-formed balanced journal of at
      least two lines, for every mix of gains and losses. */
  lemma ClosingLinesWellFormed(rows: seq<IncomeRow>)
    ensures var lines := ClosingLinesOf(rows);
            && Numbered(lines) && AllOneSided(lines) && Balanced(lines)
            && (lines == [] || |lines| >= 2)
            && (lines == [] <==> forall r :: r in rows ==> r.credit == r.debit)
            && (forall l :: l in lines ==>
                  l.account == RETAINED_EARNINGS || exists r :: r in rows && r.account == l.account)
  {
    ClosingShape(rows);
    ClosingAccounts(rows);
    ClosingNet(rows, Every());
    var lines := ClosingLinesOf(rows);
    LoneLineUnbalanced(lines);
    assert lines != [] ==> lines[0] in lines;
  }

  // ------------------------------------------------- effect on the ledger

  function Both(p: string -> bool, q: string -> bool): string -> bool {
    (code: string) => p(code) && q(code)
  }

  lemma {:induction false} KeepIncomeNet(chart: Chart, rows: seq<Row>, accounts: string -> bool)
    ensures Sum(KeepIncome(chart, rows), IncomeNet(accounts)) ==
            Sum(rows, RowNet(Both(HasRole(chart, IncomeRoles()), accounts)))
    ensures forall r :: r in KeepIncome(chart, rows) ==> HasRole(chart, IncomeRoles())(r.account)
  {
    if rows != [] {
      var init, last := rows[..|rows| - 1], rows[|rows| - 1];
      KeepIncomeNet(chart, init, accounts);
      if HasRole(chart, IncomeRoles())(last.account) {
        SumAppend(KeepIncome(chart, init),
          IncomeRow(last.account, Lookup(chart, last.account).value.role.value, last.debit, last.credit),
          IncomeNet(accounts));
      } else {
        assert KeepIncome(chart, rows) == KeepIncome(chart, init);
      }
    }
  }

  function NetOf(js: seq<Journal>, sel: Journal -> bool, code: string): int {
    Sum(js, Picked(sel, NetIn(Only(code))))
  }

  function IncomeTotal(chart: Chart, js: seq<Journal>, sel: Journal -> bool): int {
    Sum(js, Picked(sel, NetIn(HasRole(chart, IncomeRoles()))))
  }

  lemma IncomeRowsNet(chart: Chart, js: seq<Journal>, sel: Journal -> bool, accounts: string -> bool)
    requires DistinctCodes(chart) && OnChart(chart, js, sel)
    ensures Sum(IncomeRows(chart, js, sel), IncomeNet(accounts)) ==
            Sum(js, Picked(sel, NetIn(Both(HasRole(chart, IncomeRoles()), accounts))))
  {
    KeepIncomeNet(chart, Rows(chart, js, sel), accounts);
    GroupedNet(chart, js, sel, Both(HasRole(chart, IncomeRoles()), accounts));
  }

  lemma EarningsAreIncome(chart: Chart, js: seq<Journal>, sel: Journal -> bool)
    requires DistinctCodes(chart) && OnChart(chart, js, sel)
    ensures Earnings(IncomeRows(chart, js, sel)) == IncomeTotal(chart, js, sel)
  {
    IncomeRowsNet(chart, js, sel, Every());
    PickedSame(js, sel, NetIn(Both(HasRole(chart, IncomeRoles()), Every())), NetIn(HasRole(chart, IncomeRoles())));
  }

  /** The closed income accounts, one by one: the closing journal takes each
      to zero, leaves every other account but retained earnings alone, and
      moves retained earnings by exactly the summed income, also when gains and
      losses cancel. */
  lemma ClosingJournalClears(chart: Chart, js: seq<Journal>, closing: Journal, sel: Journal -> bool, code: string)
    requires DistinctCodes(chart) && OnChart(chart, js, sel)
    requires !HasRole(chart, IncomeRoles())(RETAINED_EARNINGS)
    requires sel(closing) && closing.lines == ClosingLinesOf(IncomeRows(chart, js, sel))
    ensures NetOf(js + [closing], sel, code) ==
            if HasRole(chart, IncomeRoles())(code) then 0
            else if code == RETAINED_EARNINGS then NetOf(js, sel, code) + IncomeTotal(chart, js, sel)
            else NetOf(js, sel, code)
  {
    var rows := IncomeRows(chart, js, sel);
    SumAppend(js, closing, Picked(sel, NetIn(Only(code))));
    ClosingNet(rows, Only(code));
    EarningsAreIncome(chart, js, sel);
    IncomeRowsNet(chart, js, sel, Only(code));
    var cleared := NetIn(Both(HasRole(chart, IncomeRoles()), Only(code)));
    if HasRole(chart, IncomeRoles())(code) {
      PickedSame(js, sel, cleared, NetIn(Only(code)));
    } else {
      forall j | j in js ensures Picked(sel, cleared)(j) == 0 {
        SumNil(j.lines, cleared);
      }
      SumNil(js, Picked(sel, cleared));
    }
  }

  /** An income row is a grouped row of an account in an income role, with that role. */
  predicate KeptFrom(chart: Chart, r: IncomeRow, row: Row) {
    && row.account == r.account && row.debit == r.debit && row.credit == r.credit
    && r.role in IncomeRoles() && HasRole(chart, {r.role})(r.account)
  }

  lemma {:induction false} KeptIncome(chart: Chart, rows: seq<Row>)
    ensures forall r :: r in KeepIncome(chart, rows) ==> exists row :: row in rows && KeptFrom(chart, r, row)
  {
    if rows != [] {
      var init, last := rows[..|rows| - 1], rows[|rows| - 1];
      KeptIncome(chart, init);
      assert last in rows && forall row :: row in init ==> row in rows;
      forall r | r in KeepIncome(chart, rows) ensures exists row :: row in rows && KeptFrom(chart, r, row) {
        if r in KeepIncome(chart, init) {
          var row :| row in init && KeptFrom(chart, r, row);
        } else {
          assert KeptFrom(chart, r, last);
        }
      }
    }
  }

  lemma {:induction false} IncomeIsKept(chart: Chart, rows: seq<Row>, row: Row)
    requires row in rows && HasRole(chart, IncomeRoles())(row.account)
    ensures exists r :: r in KeepIncome(chart, rows) && KeptFrom(chart, r, row)
  {
    var init, last := rows[..|rows| - 1], rows[|rows| - 1];
    if row in init {
      IncomeIsKept(chart, init, row);
      var r :| r in KeepIncome(chart, init) && KeptFrom(chart, r, row);
      assert r in KeepIncome(chart, rows);
    } else {
      var r := KeepIncome(chart, rows)[|KeepIncome(chart, rows)| - 1];
      assert KeptFrom(chart, r, row);
    }
  }

  lemma UntouchedNetsToZero(js: seq<Journal>, sel: Journal -> bool, code: string)
    requires !HasLine(js, sel, code)
    ensures NetOf(js, sel, code) == 0
  {
    CountsLines(js, sel, code);
    NoLinesNoAmount(js, sel, Dr, code);
    NoLinesNoAmount(js, sel, Cr, code);
    NetIsCreditLessDebit(js, sel, Only(code));
  }

  lemma RowIsBalance(chart: Chart, js: seq<Journal>, sel: Journal -> bool, row: Row)
    requires DistinctCodes(chart) && row in Rows(chart, js, sel)
    ensures NetOf(js, sel, row.account) == row.credit - row.debit
  {
    RowsAreGroups(chart, js, sel);
    NetIsCreditLessDebit(js, sel, Only(row.account));
  }

  lemma BalanceHasRow(chart: Chart, js: seq<Journal>, sel: Journal -> bool, code: string) returns (row: Row)
    requires DistinctCodes(chart) && Listed(chart, code) && NetOf(js, sel, code) != 0
    ensures row in Rows(chart, js, sel) && row.account == code && row.credit != row.debit
  {
    if !HasLine(js, sel, code) {
      UntouchedNetsToZero(js, sel, code);
    }
    row := Row(code, SideTotal(js, sel, Dr, code), SideTotal(js, sel, Cr, code));
    RowsAreGroups(chart, js, sel);
    NetIsCreditLessDebit(js, sel, Only(code));
  }

  lemma SomeIncomeRow(chart: Chart, rows: seq<Row>)
    ensures ClosingLinesOf(KeepIncome(chart, rows)) != [] <==>
            exists row :: row in rows && HasRole(chart, IncomeRoles())(row.account) && row.credit != row.debit
  {
    ClosingShape(KeepIncome(chart, rows));
    KeptIncome(chart, rows);
    if row :| row in rows && HasRole(chart, IncomeRoles())(row.account) && row.credit != row.debit {
      IncomeIsKept(chart, rows, row);
    }
    if r :| r in KeepIncome(chart, rows) && r.credit != r.debit {
      var row :| row in rows && KeptFrom(chart, r, row);
    }
  }

  /** A closing journal is posted exactly when some income account has a balance. */
  lemma ClosesExactlyWhenIncomeStands(chart: Chart, js: seq<Journal>, sel: Journal -> bool)
    requires DistinctCodes(chart)
    ensures ClosingLinesOf(IncomeRows(chart, js, sel)) != [] <==>
            exists code :: HasRole(chart, IncomeRoles())(code) && NetOf(js, sel, code) != 0
  {
    var rows := Rows(chart, js, sel);
    SomeIncomeRow(chart, rows);
    if row :| row in rows && HasRole(chart, IncomeRoles())(row.account) && row.credit != row.debit {
      RowIsBalance(chart, js, sel, row);
      assert NetOf(js, sel, row.account) != 0;
    }
    if code :| HasRole(chart, IncomeRoles())(code) && NetOf(js, sel, code) != 0 {
      var row := BalanceHasRow(chart, js, sel, code);
    }
  }

  /** After the closing step, with or without a journal, income nets to zero
      account by account and in total. */
  lemma IncomeClearedByClosing(chart: Chart, js: seq<Journal>, closing: Journal, sel: Journal -> bool)
    requires DistinctCodes(chart) && OnChart(chart, js, sel)
    requires !HasRole(chart, IncomeRoles())(RETAINED_EARNINGS)
    requires sel(closing) && closing.lines == ClosingLinesOf(IncomeRows(chart, js, sel))
    ensures var after := if closing.lines == [] then js else js + [closing];
            && IncomeTotal(chart, after, sel) == 0
            && forall code :: HasRole(chart, IncomeRoles())(code) ==> NetOf(after, sel, code) == 0
  {
    var income, rows := HasRole(chart, IncomeRoles()), IncomeRows(chart, js, sel);
    SumAppend(js, closing, Picked(sel, NetIn(income)));
    ClosingNet(rows, income);
    IncomeRowsNet(chart, js, sel, income);
    PickedSame(js, sel, NetIn(Both(income, income)), NetIn(income));
    forall code | income(code)
      ensures NetOf(if closing.lines == [] then js else js + [closing], sel, code) == 0
    {
      ClosingJournalClears(chart, js, closing, sel, code);
      SumAppend(js, closing, Picked(sel, NetIn(Only(code))));
    }
  }
}
