/** The catalogue and journal tables, and the grouped queries over them.
    Money is in integer micro-units and dates are day numbers. */
module JournalTables {
  import opened Sums

  type Date = int

  datatype Side = Dr | Cr

  /** A row of journal_entry_line. */
  datatype Line = Line(number: int, account: string, role: string, debit: nat, credit: nat)

  /** The CHECK constraint of journal_entry_line: exactly one positive side. */
  predicate OneSided(l: Line) {
    (l.debit > 0) != (l.credit > 0)
  }

  /** A line as proposed, before its role is resolved to an account. */
  datatype ProposedLine = ProposedLine(number: int, role: string, debit: nat, credit: nat)

  predicate AllMapped(proposed: seq<ProposedLine>, mapping: map<string, string>) {
    forall l :: l in proposed ==> l.role in mapping
  }

  function Resolved(proposed: seq<ProposedLine>, mapping: map<string, string>): (lines: seq<Line>)
    requires AllMapped(proposed, mapping)
    ensures |lines| == |proposed|
  {
    if proposed == [] then []
    else
      var l := proposed[|proposed| - 1];
      Resolved(proposed[..|proposed| - 1], mapping) + [Line(l.number, mapping[l.role], l.role, l.debit, l.credit)]
  }

  /** The same lines with the sides exchanged. */
  function Opposite(lines: seq<Line>): (swapped: seq<Line>)
    ensures |swapped| == |lines|
  {
    if lines == [] then []
    else
      var l := lines[|lines| - 1];
      Opposite(lines[..|lines| - 1]) + [l.(debit := l.credit, credit := l.debit)]
  }

  /** Every proposed line in its place, on the account its role is mapped to. */
  predicate ResolvedTo(proposed: seq<ProposedLine>, mapping: map<string, string>, lines: seq<Line>) {
    && |lines| == |proposed|
    && forall k :: 0 <= k < |lines| ==>
         && proposed[k].role in mapping
         && lines[k] == Line(proposed[k].number, mapping[proposed[k].role], proposed[k].role,
                          proposed[k].debit, proposed[k].credit)
  }

  lemma {:induction false} ResolvedInPlace(proposed: seq<ProposedLine>, mapping: map<string, string>)
    requires AllMapped(proposed, mapping)
    ensures ResolvedTo(proposed, mapping, Resolved(proposed, mapping))
  {
    if proposed != [] {
      ResolvedInPlace(proposed[..|proposed| - 1], mapping);
      assert proposed[|proposed| - 1] in proposed;
    }
  }

  /** Every line in its place with what it debits and what it credits exchanged. */
  predicate Mirrored(lines: seq<Line>, mirror: seq<Line>) {
    && |mirror| == |lines|
    && forall k :: 0 <= k < |lines| ==>
         mirror[k] == Line(lines[k].number, lines[k].account, lines[k].role, lines[k].credit, lines[k].debit)
  }

  lemma {:induction false} OppositeIsMirrored(lines: seq<Line>)
    ensures Mirrored(lines, Opposite(lines))
  {
    if lines != [] {
      OppositeIsMirrored(lines[..|lines| - 1]);
    }
  }

  /** A journal reference. Posted ids are UUID-shaped, so only references the
      closer made, and reversals of those, match the closing pattern. */
  datatype Ref = Posted(id: string) | Closing(period: int, book: string) | ReversalOf(original: Ref)

  predicate IsClosing(ref: Ref) {
    match ref
    case Posted(_) => false
    case Closing(_, _) => true
    case ReversalOf(original) => IsClosing(original)
  }

  /** An idempotency key of a proposal record or a close. The closer's own key
      is written from the period and the book; a client may supply the same text. */
  datatype Key = TextKey(text: string) | ClosingKey(period: int, book: string)

  /** The hashed evidence of a command. SHA-256 is taken to be injective, so
      the hashed payload itself stands for its digest. */
  datatype Evidence =
    | Payload(hash: string)
    | ReversalCommand(key: Key, original: Ref, date: Date, reason: string)
    | ClosingLines(period: int, book: string, lines: seq<Line>)

  /** A row of general_journal with its lines and its proposal record.
      `finalized` says that a posting receipt exists for the journal. */
  datatype Journal = Journal(
    ref: Ref, book: string, period: nat, date: Date, lines: seq<Line>,
    key: Key, evidence: Evidence, finalized: bool)

  // ---------------------------------------------------------------- catalogue

  datatype AccountClass = Asset | Liability | Equity | Revenue | Expense

  /** A current chart account with its current role. */
  datatype ChartAccount = ChartAccount(code: string, class_: AccountClass, role: Option<string>)

  /** The accounts of one book in code order. */
  type Chart = seq<ChartAccount>

  function Lookup(chart: Chart, code: string): Option<ChartAccount> {
    if chart == [] then None
    else if chart[|chart| - 1].code == code then Some(chart[|chart| - 1])
    else Lookup(chart[..|chart| - 1], code)
  }

  predicate Listed(chart: Chart, code: string) {
    Lookup(chart, code).Some?
  }

  predicate DistinctCodes(chart: Chart) {
    forall i, j :: 0 <= i < j < |chart| ==> chart[i].code != chart[j].code
  }

  function HasClass(chart: Chart, classes: set<AccountClass>): string -> bool {
    (code: string) => var found := Lookup(chart, code); found.Some? && found.value.class_ in classes
  }

  function HasRole(chart: Chart, roles: set<string>): string -> bool {
    (code: string) =>
      var found := Lookup(chart, code);
      found.Some? && found.value.role.Some? && found.value.role.value in roles
  }

  // --------------------------------------------------------------- aggregates

  /** One group of a GROUP BY over journal lines. */
  datatype Row = Row(account: string, debit: int, credit: int)

  /** SUM of a line expression over the journals a WHERE clause selects. */
  function Picked(sel: Journal -> bool, w: Line -> int): Journal -> int {
    (j: Journal) => if sel(j) then Sum(j.lines, w) else 0
  }

  function LineIn(side: Side, accounts: string -> bool): Line -> int {
    (l: Line) => if accounts(l.account) then (if side == Dr then l.debit else l.credit) else 0
  }

  /** Credit minus debit on the given accounts. */
  function NetIn(accounts: string -> bool): Line -> int {
    (l: Line) => if accounts(l.account) then l.credit - l.debit else 0
  }

  function RowIn(side: Side, accounts: string -> bool): Row -> int {
    (r: Row) => if accounts(r.account) then (if side == Dr then r.debit else r.credit) else 0
  }

  function RowNet(accounts: string -> bool): Row -> int {
    (r: Row) => if accounts(r.account) then r.credit - r.debit else 0
  }

  function Only(code: string): string -> bool {
    (other: string) => other == code
  }

  function Every(): string -> bool {
    (code: string) => true
  }

  function OneOf(code: string): Line -> int {
    (l: Line) => if l.account == code then 1 else 0
  }

  function SideTotal(js: seq<Journal>, sel: Journal -> bool, side: Side, code: string): int {
    Sum(js, Picked(sel, LineIn(side, Only(code))))
  }

  function LineCount(js: seq<Journal>, sel: Journal -> bool, code: string): int {
    Sum(js, Picked(sel, OneOf(code)))
  }

  /** SELECT code, SUM(debit), SUM(credit) ... GROUP BY code ORDER BY code. */
  function Rows(chart: Chart, js: seq<Journal>, sel: Journal -> bool): seq<Row> {
    if chart == [] then []
    else
      var code := chart[|chart| - 1].code;
      Rows(chart[..|chart| - 1], js, sel) +
      if LineCount(js, sel, code) > 0
      then [Row(code, SideTotal(js, sel, Dr, code), SideTotal(js, sel, Cr, code))]
      else []
  }

  /** WHERE accounting_book_id = book AND accounting_date <= date. */
  function Through(book: string, date: Date): Journal -> bool {
    (j: Journal) => j.book == book && j.date <= date
  }

  /** Every line of the journals is on the chart of its book. */
  predicate OnChart(chart: Chart, js: seq<Journal>, sel: Journal -> bool) {
    forall j, l :: j in js && sel(j) && l in j.lines ==> Listed(chart, l.account)
  }

  // --------------------------------------------------- sums of selected lines

  lemma PickedNatural(js: seq<Journal>, sel: Journal -> bool, w: Line -> int)
    requires forall l :: w(l) >= 0
    ensures Sum(js, Picked(sel, w)) >= 0
    ensures forall j :: j in js && sel(j) ==> Sum(j.lines, w) <= Sum(js, Picked(sel, w))
  {
    forall j | j in js ensures Picked(sel, w)(j) >= 0 {
      SumNatural(j.lines, w);
    }
    SumNatural(js, Picked(sel, w));
    forall j | j in js && sel(j) ensures Sum(j.lines, w) <= Sum(js, Picked(sel, w)) {
      assert Picked(sel, w)(j) == Sum(j.lines, w);
    }
  }

  /** A linear identity between line expressions carries over to their sums. */
  lemma PickedAdds(js: seq<Journal>, sel: Journal -> bool, f: Line -> int, g: Line -> int, h: Line -> int)
    requires forall j, l :: j in js && sel(j) && l in j.lines ==> h(l) == f(l) + g(l)
    ensures Sum(js, Picked(sel, h)) == Sum(js, Picked(sel, f)) + Sum(js, Picked(sel, g))
  {
    forall j | j in js ensures Picked(sel, h)(j) == Picked(sel, f)(j) + Picked(sel, g)(j) {
      if sel(j) {
        SumAdds(j.lines, f, g, h);
      }
    }
    SumAdds(js, Picked(sel, f), Picked(sel, g), Picked(sel, h));
  }

  lemma PickedSame(js: seq<Journal>, sel: Journal -> bool, f: Line -> int, g: Line -> int)
    requires forall j, l :: j in js && sel(j) && l in j.lines ==> f(l) == g(l)
    ensures Sum(js, Picked(sel, f)) == Sum(js, Picked(sel, g))
  {
    forall j | j in js ensures Picked(sel, f)(j) == Picked(sel, g)(j) {
      if sel(j) {
        SumSame(j.lines, f, g);
      }
    }
    SumSame(js, Picked(sel, f), Picked(sel, g));
  }

  /** Two disjoint WHERE clauses and the clause that joins them. */
  lemma PickedSplit(js: seq<Journal>, a: Journal -> bool, b: Journal -> bool, both: Journal -> bool, w: Line -> int)
    requires forall j :: j in js ==> both(j) == (a(j) || b(j)) && !(a(j) && b(j))
    ensures Sum(js, Picked(both, w)) == Sum(js, Picked(a, w)) + Sum(js, Picked(b, w))
  {
    SumAdds(js, Picked(a, w), Picked(b, w), Picked(both, w));
  }

  lemma PickedAgree(js: seq<Journal>, a: Journal -> bool, b: Journal -> bool, w: Line -> int)
    requires forall j :: j in js ==> a(j) == b(j)
    ensures Sum(js, Picked(a, w)) == Sum(js, Picked(b, w))
  {
    SumSame(js, Picked(a, w), Picked(b, w));
  }

  lemma NetIsCreditLessDebit(js: seq<Journal>, sel: Journal -> bool, accounts: string -> bool)
    ensures Sum(js, Picked(sel, NetIn(accounts))) ==
            Sum(js, Picked(sel, LineIn(Cr, accounts))) - Sum(js, Picked(sel, LineIn(Dr, accounts)))
  {
    PickedAdds(js, sel, NetIn(accounts), LineIn(Dr, accounts), LineIn(Cr, accounts));
  }

  // ---------------------------------------------------------------- grouping

  function Within(chart: Chart, accounts: string -> bool): string -> bool {
    (code: string) => accounts(code) && Listed(chart, code)
  }

  lemma {:induction false} CodeListed(chart: Chart, code: string)
    ensures Listed(chart, code) <==> exists i :: 0 <= i < |chart| && chart[i].code == code
    ensures Listed(chart, code) ==> Lookup(chart, code).value in chart && Lookup(chart, code).value.code == code
  {
    if chart != [] && chart[|chart| - 1].code != code {
      var init := chart[..|chart| - 1];
      CodeListed(init, code);
      if i :| 0 <= i < |chart| && chart[i].code == code {
        assert init[i].code == code;
      }
    }
  }

  lemma NoLinesNoAmount(js: seq<Journal>, sel: Journal -> bool, side: Side, code: string)
    requires LineCount(js, sel, code) <= 0
    ensures SideTotal(js, sel, side, code) == 0
  {
    PickedNatural(js, sel, OneOf(code));
    forall j, l | j in js && sel(j) && l in j.lines ensures LineIn(side, Only(code))(l) == 0 {
      assert Sum(j.lines, OneOf(code)) <= 0;
      SumNatural(j.lines, OneOf(code));
      assert OneOf(code)(l) <= 0;
    }
    PickedSame(js, sel, LineIn(side, Only(code)), l => 0);
    forall j | j in js ensures Picked(sel, (l: Line) => 0)(j) == 0 {
      SumNil(j.lines, (l: Line) => 0);
    }
    SumNil(js, Picked(sel, (l: Line) => 0));
  }

  /** Lines on a longer chart are those on the shorter one and those of its
      last account. */
  lemma OneMoreAccount(chart: Chart, js: seq<Journal>, sel: Journal -> bool, side: Side, accounts: string -> bool)
    requires chart != [] && !Listed(chart[..|chart| - 1], chart[|chart| - 1].code)
    ensures var init, code := chart[..|chart| - 1], chart[|chart| - 1].code;
            Sum(js, Picked(sel, LineIn(side, Within(chart, accounts)))) ==
            Sum(js, Picked(sel, LineIn(side, Within(init, accounts)))) +
            if accounts(code) then SideTotal(js, sel, side, code) else 0
  {
    var init, code := chart[..|chart| - 1], chart[|chart| - 1].code;
    var longer, shorter := LineIn(side, Within(chart, accounts)), LineIn(side, Within(init, accounts));
    forall l: Line
      ensures longer(l) == shorter(l) + if accounts(code) then LineIn(side, Only(code))(l) else 0
    {
      assert Listed(chart, l.account) == (Listed(init, l.account) || l.account == code);
    }
    if accounts(code) {
      PickedAdds(js, sel, shorter, LineIn(side, Only(code)), longer);
    } else {
      PickedSame(js, sel, longer, shorter);
    }
  }

  /** Summing the groups of a prefix of the chart sums the lines on it. */
  lemma {:induction false} GroupedPrefix(
      chart: Chart, js: seq<Journal>, sel: Journal -> bool, side: Side, accounts: string -> bool)
    requires DistinctCodes(chart)
    ensures Sum(Rows(chart, js, sel), RowIn(side, accounts)) ==
            Sum(js, Picked(sel, LineIn(side, Within(chart, accounts))))
  {
    if chart == [] {
      forall j | j in js ensures Picked(sel, LineIn(side, Within(chart, accounts)))(j) == 0 {
        assert forall l: Line :: !Listed(chart, l.account);
        SumNil(j.lines, LineIn(side, Within(chart, accounts)));
      }
      SumNil(js, Picked(sel, LineIn(side, Within(chart, accounts))));
    } else {
      var init, code := chart[..|chart| - 1], chart[|chart| - 1].code;
      GroupedPrefix(init, js, sel, side, accounts);
      CodeListed(init, code);
      OneMoreAccount(chart, js, sel, side, accounts);
      if LineCount(js, sel, code) > 0 {
        SumAppend(Rows(init, js, sel), Row(code, SideTotal(js, sel, Dr, code), SideTotal(js, sel, Cr, code)),
          RowIn(side, accounts));
      } else {
        NoLinesNoAmount(js, sel, side, code);
        assert Rows(chart, js, sel) == Rows(init, js, sel);
      }
    }
  }

  /** A sum over groups is the sum over the lines behind them. */
  lemma GroupedTotal(chart: Chart, js: seq<Journal>, sel: Journal -> bool, side: Side, accounts: string -> bool)
    requires DistinctCodes(chart) && OnChart(chart, js, sel)
    ensures Sum(Rows(chart, js, sel), RowIn(side, accounts)) == Sum(js, Picked(sel, LineIn(side, accounts)))
  {
    GroupedPrefix(chart, js, sel, side, accounts);
    PickedSame(js, sel, LineIn(side, Within(chart, accounts)), LineIn(side, accounts));
  }

  lemma GroupedNet(chart: Chart, js: seq<Journal>, sel: Journal -> bool, accounts: string -> bool)
    requires DistinctCodes(chart) && OnChart(chart, js, sel)
    ensures Sum(Rows(chart, js, sel), RowNet(accounts)) == Sum(js, Picked(sel, NetIn(accounts)))
  {
    GroupedTotal(chart, js, sel, Dr, accounts);
    GroupedTotal(chart, js, sel, Cr, accounts);
    NetIsCreditLessDebit(js, sel, accounts);
    SumAdds(Rows(chart, js, sel), RowNet(accounts), RowIn(Dr, accounts), RowIn(Cr, accounts));
  }

  /** Some selected journal has a line on the account. */
  predicate HasLine(js: seq<Journal>, sel: Journal -> bool, code: string) {
    exists j, l :: j in js && sel(j) && l in j.lines && l.account == code
  }

  lemma CountsLines(js: seq<Journal>, sel: Journal -> bool, code: string)
    ensures LineCount(js, sel, code) > 0 <==> HasLine(js, sel, code)
  {
    PickedNatural(js, sel, OneOf(code));
    if HasLine(js, sel, code) {
      var j, l :| j in js && sel(j) && l in j.lines && l.account == code;
      SumNatural(j.lines, OneOf(code));
      assert OneOf(code)(l) == 1;
    } else {
      forall j | j in js ensures Picked(sel, OneOf(code))(j) == 0 {
        if sel(j) {
          SumNil(j.lines, OneOf(code));
        }
      }
      SumNil(js, Picked(sel, OneOf(code)));
    }
  }

  /** The row of a listed account that a selected line touches, with its two sides. */
  ghost predicate IsGroup(chart: Chart, js: seq<Journal>, sel: Journal -> bool, r: Row) {
    && Listed(chart, r.account) && HasLine(js, sel, r.account)
    && r.debit == SideTotal(js, sel, Dr, r.account) && r.credit == SideTotal(js, sel, Cr, r.account)
  }

  predicate StandsBefore(chart: Chart, code: string, other: string) {
    exists a, b :: 0 <= a < b < |chart| && chart[a].code == code && chart[b].code == other
  }

  predicate InChartOrder(chart: Chart, rows: seq<Row>) {
    forall i, k :: 0 <= i < k < |rows| ==> StandsBefore(chart, rows[i].account, rows[k].account)
  }

  lemma OrderOneMore(chart: Chart, rows: seq<Row>, row: Row)
    requires chart != [] && InChartOrder(chart[..|chart| - 1], rows)
    requires forall r :: r in rows ==> Listed(chart[..|chart| - 1], r.account)
    requires row.account == chart[|chart| - 1].code
    ensures InChartOrder(chart, rows) && InChartOrder(chart, rows + [row])
  {
    var init := chart[..|chart| - 1];
    forall i, k | 0 <= i < k < |rows| ensures StandsBefore(chart, rows[i].account, rows[k].account) {
      assert StandsBefore(init, rows[i].account, rows[k].account);
      var a, b :| 0 <= a < b < |init| && init[a].code == rows[i].account && init[b].code == rows[k].account;
      assert chart[a].code == rows[i].account && chart[b].code == rows[k].account;
    }
    forall i | 0 <= i < |rows| ensures StandsBefore(chart, rows[i].account, row.account) {
      CodeListed(init, rows[i].account);
      var a :| 0 <= a < |init| && init[a].code == rows[i].account;
      assert chart[a].code == rows[i].account && chart[|chart| - 1].code == row.account;
    }
  }

  lemma GroupOneMore(chart: Chart, js: seq<Journal>, sel: Journal -> bool, r: Row)
    requires chart != [] && !Listed(chart[..|chart| - 1], chart[|chart| - 1].code)
    ensures var init, code := chart[..|chart| - 1], chart[|chart| - 1].code;
            IsGroup(chart, js, sel, r) <==>
            || IsGroup(init, js, sel, r)
            || (HasLine(js, sel, code) && r == Row(code, SideTotal(js, sel, Dr, code), SideTotal(js, sel, Cr, code)))
  {
  }

  /** The grouped rows are one row for every account of the chart that a selected line
      touches, with its two sides, in the order of the chart. */
  lemma {:induction false} RowsAreGroups(chart: Chart, js: seq<Journal>, sel: Journal -> bool)
    requires DistinctCodes(chart)
    ensures forall r :: r in Rows(chart, js, sel) <==> IsGroup(chart, js, sel, r)
    ensures InChartOrder(chart, Rows(chart, js, sel))
  {
    if chart != [] {
      var init, code := chart[..|chart| - 1], chart[|chart| - 1].code;
      var row := Row(code, SideTotal(js, sel, Dr, code), SideTotal(js, sel, Cr, code));
      RowsAreGroups(init, js, sel);
      CodeListed(init, code);
      CountsLines(js, sel, code);
      OrderOneMore(chart, Rows(init, js, sel), row);
      forall r ensures r in Rows(chart, js, sel) <==> IsGroup(chart, js, sel, r) {
        GroupOneMore(chart, js, sel, r);
      }
    }
  }

  // ------------------------------------------------------------ line shapes

  predicate Numbered(lines: seq<Line>) {
    forall i :: 0 <= i < |lines| ==> lines[i].number == i + 1
  }

  predicate AllOneSided(lines: seq<Line>) {
    forall l :: l in lines ==> OneSided(l)
  }

  predicate Balanced(lines: seq<Line>) {
    Sum(lines, NetIn(Every())) == 0
  }

  predicate DistinctNumbers(lines: seq<Line>) {
    && (forall l :: l in lines ==> l.number > 0)
    && (forall i, k :: 0 <= i < k < |lines| ==> lines[i].number != lines[k].number)
  }

  /** Exchanging the sides negates every account's net. */
  lemma {:induction false} OppositeNet(lines: seq<Line>, accounts: string -> bool)
    ensures Sum(Opposite(lines), NetIn(accounts)) == -Sum(lines, NetIn(accounts))
  {
    if lines != [] {
      var init, l := lines[..|lines| - 1], lines[|lines| - 1];
      OppositeNet(init, accounts);
      SumAppend(Opposite(init), l.(debit := l.credit, credit := l.debit), NetIn(accounts));
    }
  }

  // ------------------------------------------------------------- one more row

  lemma {:induction false} RowsIgnoreUnselected(chart: Chart, js: seq<Journal>, j: Journal, sel: Journal -> bool)
    requires !sel(j)
    ensures Rows(chart, js + [j], sel) == Rows(chart, js, sel)
  {
    if chart != [] {
      var code := chart[|chart| - 1].code;
      RowsIgnoreUnselected(chart[..|chart| - 1], js, j, sel);
      SumAppend(js, j, Picked(sel, OneOf(code)));
      SumAppend(js, j, Picked(sel, LineIn(Dr, Only(code))));
      SumAppend(js, j, Picked(sel, LineIn(Cr, Only(code))));
    }
  }

  /** A selected journal with a one-sided line shows up in the groups. */
  lemma RowsNoticeSelected(chart: Chart, js: seq<Journal>, j: Journal, sel: Journal -> bool)
    requires DistinctCodes(chart) && OnChart(chart, js + [j], sel)
    requires sel(j) && j.lines != [] && forall l :: l in j.lines ==> OneSided(l)
    ensures Rows(chart, js + [j], sel) != Rows(chart, js, sel)
  {
    assert forall k :: k in js ==> k in js + [j];
    assert j in js + [j];
    assert OnChart(chart, js, sel);
    GroupedTotal(chart, js, sel, Dr, Every());
    GroupedTotal(chart, js, sel, Cr, Every());
    GroupedTotal(chart, js + [j], sel, Dr, Every());
    GroupedTotal(chart, js + [j], sel, Cr, Every());
    SumAppend(js, j, Picked(sel, LineIn(Dr, Every())));
    SumAppend(js, j, Picked(sel, LineIn(Cr, Every())));
    SumNatural(j.lines, LineIn(Dr, Every()));
    SumNatural(j.lines, LineIn(Cr, Every()));
    assert j.lines[0] in j.lines;
    assert LineIn(Dr, Every())(j.lines[0]) + LineIn(Cr, Every())(j.lines[0]) > 0;
  }
}
