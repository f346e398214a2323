/** Reading the lines of an adjusting journal: what reaches the ledger is
    numbered, one-sided, in one currency and balanced. */
module AdjustingLines {
  import BookStore
  import CloseInvariant
  import Commands = AcceptedCommands
  import opened JournalTables
  import opened MoneyText
  import opened Sums

  /** A line as sent; a missing amount, or one that is not a string, is None. */
  datatype RawLine = NotAnObject | RawLine(account: string, side: string, currency: string, amount: Option<string>)

  datatype RawLines = NotAnArray | Lines(lines: seq<RawLine>)

  datatype Refusal =
    | LinesNotAnArray | TooFewLines | LineNotAnObject | AccountMissing | SideUnknown | CurrencyMalformed
    | CurrencyMixed | AmountNotText | AmountMalformed | AmountNotPositive | Unbalanced

  datatype Result = Parsed(lines: seq<Line>, currency: string) | Rejected(why: Refusal)

  predicate IsCurrency(code: string) {
    |code| == 3 && forall k :: 0 <= k < 3 ==> 'A' <= code[k] <= 'Z'
  }

  /** The checks of one line, in their order; `currency` is empty before the first
      line. */
  function LineFault(raw: RawLine, currency: string): Option<Refusal> {
    if raw.NotAnObject? then Some(LineNotAnObject)
    else if raw.account == "" then Some(AccountMissing)
    else if raw.side != "debit" && raw.side != "credit" then Some(SideUnknown)
    else if !IsCurrency(raw.currency) then Some(CurrencyMalformed)
    else if currency != "" && raw.currency != currency then Some(CurrencyMixed)
    else if raw.amount.None? then Some(AmountNotText)
    else if ParseAmount(raw.amount.value).None? then Some(AmountMalformed)
    else if ParseAmount(raw.amount.value).value.coefficient == 0 then Some(AmountNotPositive)
    else None
  }

  /** The currency the first line sets for all. */
  function CurrencyOf(lines: seq<RawLine>): string {
    if lines == [] || lines[0].NotAnObject? then "" else lines[0].currency
  }

  /** The fault of a line in its place. */
  function FaultAt(lines: seq<RawLine>, k: nat): Option<Refusal>
    requires k < |lines|
  {
    LineFault(lines[k], if k == 0 then "" else CurrencyOf(lines))
  }

  /** The amount a line states, in millionths. */
  function AmountOf(raw: RawLine): nat {
    if raw.RawLine? && raw.amount.Some? && ParseAmount(raw.amount.value).Some?
    then Micros(ParseAmount(raw.amount.value).value) else 0
  }

  function AmountOn(side: string): RawLine -> int {
    (raw: RawLine) => if raw.RawLine? && raw.side == side then AmountOf(raw) else 0
  }

  function LineOf(raw: RawLine, number: int): Line {
    if raw.NotAnObject? then Line(number, "", "adjusting", 0, 0)
    else
      Line(number, raw.account, "adjusting",
           if raw.side == "debit" then AmountOf(raw) else 0, if raw.side == "credit" then AmountOf(raw) else 0)
  }

  /** Each line as sent became the journal line of its position. */
  predicate Rendered(raws: seq<RawLine>, lines: seq<Line>) {
    |lines| == |raws| && forall k :: 0 <= k < |raws| ==> lines[k] == LineOf(raws[k], k + 1)
  }

  predicate Faultless(lines: seq<RawLine>) {
    forall k :: 0 <= k < |lines| ==> FaultAt(lines, k).None?
  }

  predicate Acceptable(raw: RawLines) {
    && raw.Lines? && |raw.lines| >= 2 && Faultless(raw.lines)
    && Sum(raw.lines, AmountOn("debit")) == Sum(raw.lines, AmountOn("credit"))
  }

  /** A refusal names the first thing wrong. */
  predicate Blamed(raw: RawLines, why: Refusal) {
    if raw.NotAnArray? then why == LinesNotAnArray
    else if |raw.lines| < 2 then why == TooFewLines
    else if Faultless(raw.lines) then why == Unbalanced
    else exists k :: 0 <= k < |raw.lines| && FaultAt(raw.lines, k) == Some(why) && Faultless(raw.lines[..k])
  }

  lemma FirstFaultIsBlamed(lines: seq<RawLine>, i: nat, why: Refusal)
    requires i < |lines| && Faultless(lines[..i])
    requires LineFault(lines[i], if i == 0 then "" else CurrencyOf(lines[..i])) == Some(why)
    ensures !Faultless(lines) && (|lines| >= 2 ==> Blamed(Lines(lines), why))
  {
    assert FaultAt(lines, i) == Some(why);
  }

  /** What the loop knows after some lines. */
  ghost predicate ReadSoFar(lines: seq<RawLine>, parsed: seq<Line>, currency: string, debits: int, credits: int) {
    && Faultless(lines) && Rendered(lines, parsed) && currency == CurrencyOf(lines)
    && debits == Sum(lines, AmountOn("debit")) && credits == Sum(lines, AmountOn("credit"))
  }

  lemma ReadOneMore(
    lines: seq<RawLine>, parsed: seq<Line>, currency: string, debits: int, credits: int, raw: RawLine, line: Line)
    requires ReadSoFar(lines, parsed, currency, debits, credits)
    requires LineFault(raw, currency).None? && line == LineOf(raw, |lines| + 1)
    ensures ReadSoFar(lines + [raw], parsed + [line], raw.currency, debits + line.debit, credits + line.credit)
  {
    SumAppend(lines, raw, AmountOn("debit"));
    SumAppend(lines, raw, AmountOn("credit"));
    if lines != [] {
      assert FaultAt(lines, 0).None?;
      assert CurrencyOf(lines) == lines[0].currency && lines[0].currency != "";
    }
    var all := lines + [raw];
    forall k | 0 <= k < |all| ensures FaultAt(all, k).None? {
      assert k < |lines| ==> FaultAt(lines, k).None?;
    }
  }

  method ReadLine(raw: RawLine, number: int, currency: string) returns (fault: Option<Refusal>, line: Line)
    ensures fault == LineFault(raw, currency)
    ensures fault.None? ==> line == LineOf(raw, number)
  {
    fault := LineFault(raw, currency);
    line := Line(number, "", "adjusting", 0, 0);
    if fault.None? {
      var amount := Micros(ParseAmount(raw.amount.value).value);
      var debit, credit := if raw.side == "debit" then amount else 0, if raw.side == "credit" then amount else 0;
      line := Line(number, raw.account, "adjusting", debit, credit);
    }
  }

  /** The loop over the lines: numbers them and keeps both running totals. */
  method ReadLines(lines: seq<RawLine>)
    returns (fault: Option<Refusal>, parsed: seq<Line>, currency: string, debitTotal: int, creditTotal: int)
    ensures fault.None? ==> ReadSoFar(lines, parsed, currency, debitTotal, creditTotal)
    ensures fault.Some? ==> !Faultless(lines) && (|lines| >= 2 ==> Blamed(Lines(lines), fault.value))
  {
    fault, parsed, currency, debitTotal, creditTotal := None, [], "", 0, 0;
    for i := 0 to |lines|
      invariant ReadSoFar(lines[..i], parsed, currency, debitTotal, creditTotal)
      invariant fault == None
    {
      var line;
      fault, line := ReadLine(lines[i], i + 1, currency);
      if fault.Some? {
        FirstFaultIsBlamed(lines, i, fault.value);
        return;
      }
      ReadOneMore(lines[..i], parsed, currency, debitTotal, creditTotal, lines[i], line);
      assert lines[..i] + [lines[i]] == lines[..i + 1];
      currency := lines[i].currency;
      debitTotal, creditTotal := debitTotal + line.debit, creditTotal + line.credit;
      parsed := parsed + [line];
    }
    assert lines[..|lines|] == lines;
  }

  method ParseAdjustingJournalLines(raw: RawLines) returns (result: Result)
    ensures result.Parsed? <==> Acceptable(raw)
    ensures result.Parsed? ==> Rendered(raw.lines, result.lines) && result.currency == CurrencyOf(raw.lines)
    ensures result.Rejected? ==> Blamed(raw, result.why)
  {
    if raw.NotAnArray? {
      return Rejected(LinesNotAnArray);
    }
    if |raw.lines| < 2 {
      return Rejected(TooFewLines);
    }
    var fault, parsed, currency, debitTotal, creditTotal := ReadLines(raw.lines);
    if fault.Some? {
      return Rejected(fault.value);
    }
    if debitTotal != creditTotal {
      return Rejected(Unbalanced);
    }
    result := Parsed(parsed, currency);
  }

  // -------------------------------------------------------- what is accepted

  lemma {:induction false} ScaledStaysPositive(n: nat, zeros: nat)
    requires n > 0
    ensures Scaled(n, zeros) > 0
  {
    if zeros > 0 {
      ScaledStaysPositive(n, zeros - 1);
    }
  }

  lemma FaultlessIsOneSided(raw: RawLine, currency: string, number: int)
    requires LineFault(raw, currency).None?
    ensures OneSided(LineOf(raw, number))
  {
    var amount := ParseAmount(raw.amount.value).value;
    ScaledStaysPositive(amount.coefficient, MAX_SCALE - amount.scale);
  }

  lemma {:induction false} RenderedTotals(raws: seq<RawLine>, lines: seq<Line>)
    requires Rendered(raws, lines)
    ensures Sum(lines, NetIn(Every())) == Sum(raws, AmountOn("credit")) - Sum(raws, AmountOn("debit"))
  {
    if raws != [] {
      RenderedTotals(raws[..|raws| - 1], lines[..|lines| - 1]);
    }
  }

  /** Lines that are accepted are what the ledger asks of a journal: at least two,
      numbered from one, one-sided and balanced. */
  lemma AcceptedLinesAreAJournal(raw: RawLines, lines: seq<Line>)
    requires Acceptable(raw) && Rendered(raw.lines, lines)
    ensures |lines| >= 2 && Numbered(lines) && DistinctNumbers(lines) && AllOneSided(lines) && Balanced(lines)
  {
    forall l | l in lines ensures OneSided(l) && l.number > 0 {
      var k :| 0 <= k < |lines| && lines[k] == l;
      assert FaultAt(raw.lines, k).None?;
      FaultlessIsOneSided(raw.lines[k], if k == 0 then "" else CurrencyOf(raw.lines), k + 1);
    }
    RenderedTotals(raw.lines, lines);
  }

  /** And they are all in one currency. */
  lemma AcceptedLinesShareACurrency(raw: RawLines)
    requires Acceptable(raw)
    ensures forall k :: 0 <= k < |raw.lines| ==> raw.lines[k].RawLine? && raw.lines[k].currency == CurrencyOf(raw.lines)
  {
    assert FaultAt(raw.lines, 0).None?;
    forall k | 0 <= k < |raw.lines|
      ensures raw.lines[k].RawLine? && raw.lines[k].currency == CurrencyOf(raw.lines)
    {
      assert FaultAt(raw.lines, k).None?;
    }
  }

  // ------------------------------------------------- in terms of what was sent

  /** A line that is right by itself: an account, a side, a currency code, and the text of
      an amount that denotes more than nothing. */
  predicate WellFormedLine(raw: RawLine) {
    && raw.RawLine? && raw.account != "" && raw.side in {"debit", "credit"} && IsCurrency(raw.currency)
    && raw.amount.Some? && Accepted(raw.amount.value) && Denoted(raw.amount.value) > 0
  }

  /** The number the line's text denotes, when it is on this side. */
  function StatedOn(side: string): RawLine -> int {
    (raw: RawLine) => if WellFormedLine(raw) && raw.side == side then Denoted(raw.amount.value) else 0
  }

  lemma {:induction false} ScaledZero(zeros: nat)
    ensures Scaled(0, zeros) == 0
  {
    if zeros > 0 {
      ScaledZero(zeros - 1);
    }
  }

  lemma NothingIsDenotedByZeros(text: string)
    requires Accepted(text)
    ensures Denoted(text) > 0 <==> ParseAmount(text).value.coefficient != 0
  {
    var d := ParseAmount(text).value;
    ParsedIsDenoted(text);
    if d.coefficient > 0 {
      ScaledStaysPositive(d.coefficient, MAX_SCALE - d.scale);
    } else {
      ScaledZero(MAX_SCALE - d.scale);
    }
  }

  lemma FaultlessExactlyWhen(raw: RawLine, currency: string)
    ensures LineFault(raw, currency).None? <==>
            WellFormedLine(raw) && (currency == "" || raw.currency == currency)
    ensures WellFormedLine(raw) ==> AmountOf(raw) == Denoted(raw.amount.value)
  {
    if raw.RawLine? && raw.amount.Some? && Accepted(raw.amount.value) {
      NothingIsDenotedByZeros(raw.amount.value);
      ParsedIsDenoted(raw.amount.value);
    }
  }

  lemma StatedAmounts(lines: seq<RawLine>, side: string)
    requires forall k :: 0 <= k < |lines| ==> WellFormedLine(lines[k])
    ensures Sum(lines, AmountOn(side)) == Sum(lines, StatedOn(side))
  {
    forall raw | raw in lines ensures AmountOn(side)(raw) == StatedOn(side)(raw) {
      FaultlessExactlyWhen(raw, "");
    }
    SumSame(lines, AmountOn(side), StatedOn(side));
  }

  /** Lines are accepted exactly when there are at least two, each right by itself, all in
      one currency, and the numbers they denote balance. */
  lemma AcceptableExactlyWhen(raw: RawLines)
    ensures Acceptable(raw) <==>
            && raw.Lines? && |raw.lines| >= 2
            && (forall k :: 0 <= k < |raw.lines| ==>
                  && WellFormedLine(raw.lines[k])
                  && raw.lines[0].RawLine? && raw.lines[k].currency == raw.lines[0].currency)
            && Sum(raw.lines, StatedOn("debit")) == Sum(raw.lines, StatedOn("credit"))
  {
    if raw.Lines? && |raw.lines| >= 2 {
      var lines := raw.lines;
      forall k | 0 <= k < |lines|
        ensures FaultAt(lines, k).None? <==>
                WellFormedLine(lines[k]) &&
                (k == 0 || CurrencyOf(lines) == "" || lines[k].currency == CurrencyOf(lines))
      {
        FaultlessExactlyWhen(lines[k], if k == 0 then "" else CurrencyOf(lines));
      }
      assert FaultAt(lines, 0).None? ==> CurrencyOf(lines) == lines[0].currency && lines[0].currency != "";
      if forall k :: 0 <= k < |lines| ==> WellFormedLine(lines[k]) {
        StatedAmounts(lines, "debit");
        StatedAmounts(lines, "credit");
      }
    }
  }

  /** Each accepted line is numbered by its place and books the number its text denotes to
      the account and the side it names. */
  lemma BooksWhatWasSent(raw: RawLines, lines: seq<Line>)
    requires Acceptable(raw) && Rendered(raw.lines, lines)
    ensures forall k :: 0 <= k < |lines| ==>
              && WellFormedLine(raw.lines[k])
              && lines[k].number == k + 1 && lines[k].account == raw.lines[k].account
              && lines[k].debit == (if raw.lines[k].side == "debit" then Denoted(raw.lines[k].amount.value) else 0)
              && lines[k].credit == (if raw.lines[k].side == "credit" then Denoted(raw.lines[k].amount.value) else 0)
  {
    AcceptableExactlyWhen(raw);
    forall k | 0 <= k < |lines| ensures AmountOf(raw.lines[k]) == Denoted(raw.lines[k].amount.value) {
      FaultlessExactlyWhen(raw.lines[k], "");
    }
  }

  /** What a refusal says of the line it blames, where earlier lines set the currency. */
  predicate SaysOfLine(raw: RawLine, first: RawLine, why: Refusal) {
    match why
    case LineNotAnObject => raw.NotAnObject?
    case AccountMissing => raw.RawLine? && raw.account == ""
    case SideUnknown => raw.RawLine? && raw.side !in {"debit", "credit"}
    case CurrencyMalformed => raw.RawLine? && !IsCurrency(raw.currency)
    case CurrencyMixed => raw.RawLine? && first.RawLine? && raw.currency != first.currency
    case AmountNotText => raw.RawLine? && raw.amount.None?
    case AmountMalformed => raw.RawLine? && raw.amount.Some? && !Accepted(raw.amount.value)
    case AmountNotPositive =>
      raw.RawLine? && raw.amount.Some? && Accepted(raw.amount.value) && Denoted(raw.amount.value) == 0
    case _ => false
  }

  /** What a refusal says of the lines: of the whole of them, or of the first wrong one. */
  predicate SaysOfLines(raw: RawLines, why: Refusal) {
    match why
    case LinesNotAnArray => raw.NotAnArray?
    case TooFewLines => raw.Lines? && |raw.lines| < 2
    case Unbalanced => raw.Lines? && Sum(raw.lines, StatedOn("debit")) != Sum(raw.lines, StatedOn("credit"))
    case _ =>
      raw.Lines? && exists k :: 0 <= k < |raw.lines| && SaysOfLine(raw.lines[k], raw.lines[0], why)
                             && forall i :: 0 <= i < k ==> WellFormedLine(raw.lines[i])
  }

  lemma FaultSaysSo(raw: RawLine, currency: string, first: RawLine)
    requires LineFault(raw, currency).Some? && (currency == "" || (first.RawLine? && first.currency == currency))
    ensures SaysOfLine(raw, first, LineFault(raw, currency).value)
  {
    if raw.RawLine? && raw.amount.Some? && Accepted(raw.amount.value) {
      NothingIsDenotedByZeros(raw.amount.value);
    }
  }

  /** What a refusal says is so. */
  lemma RefusalsAreTrue(raw: RawLines, why: Refusal)
    requires !Acceptable(raw) && Blamed(raw, why)
    ensures SaysOfLines(raw, why)
  {
    if raw.Lines? && |raw.lines| >= 2 {
      var lines := raw.lines;
      if Faultless(lines) {
        forall k | 0 <= k < |lines| ensures WellFormedLine(lines[k]) {
          assert FaultAt(lines, k).None?;
          FaultlessExactlyWhen(lines[k], if k == 0 then "" else CurrencyOf(lines));
        }
        StatedAmounts(lines, "debit");
        StatedAmounts(lines, "credit");
      } else {
        var k :| 0 <= k < |lines| && FaultAt(lines, k) == Some(why) && Faultless(lines[..k]);
        FaultSaysSo(lines[k], if k == 0 then "" else CurrencyOf(lines), lines[0]);
        forall i | 0 <= i < k ensures WellFormedLine(lines[i]) {
          assert FaultAt(lines[..k], i).None?;
          FaultlessExactlyWhen(lines[i], if i == 0 then "" else CurrencyOf(lines[..k]));
        }
        assert SaysOfLine(lines[k], lines[0], why);
      }
    }
  }

  // ------------------------------------------------------------ in the ledger

  /** Every account the lines name is on the chart. */
  predicate AccountsListed(raw: RawLines, chart: Chart)
    requires raw.Lines?
  {
    forall k :: 0 <= k < |raw.lines| && raw.lines[k].RawLine? ==> Listed(chart, raw.lines[k].account)
  }

  /** Accepted lines on listed accounts are all that the database asks of a journal. */
  lemma AcceptedLinesAreSound(raw: RawLines, lines: seq<Line>, chart: Chart)
    requires Acceptable(raw) && Rendered(raw.lines, lines)
    ensures Commands.SoundLines(chart, lines) <==> AccountsListed(raw, chart)
  {
    AcceptedLinesAreAJournal(raw, lines);
    AcceptedLinesShareACurrency(raw);
    forall k | 0 <= k < |lines| ensures lines[k].account == raw.lines[k].account && lines[k] in lines {
    }
  }

  /** So an adjustment with lines that the parser accepted is accepted exactly when its
      accounts are on the book's chart and nothing but its lines stands against it. */
  lemma ParsedLinesAreAcceptedExactlyWhen(s: BookStore.State, c: BookStore.Command, raw: RawLines)
    requires c.Adjust? && CloseInvariant.PeriodsOk(s) && Acceptable(raw) && Rendered(raw.lines, c.lines)
    ensures BookStore.AdjustStep(s, c).reply.Accepted? <==>
            && Commands.Unused(s, c.key, Ref.Posted(c.id))
            && c.book in s.charts && Commands.SomeRoleMapped(s.charts[c.book]) && AccountsListed(raw, s.charts[c.book])
            && exists p :: 0 <= p < |s.periods| && Commands.PeriodAdmits(s, c, p)
  {
    Commands.AdjustedExactlyWhen(s, c);
    if c.book in s.charts {
      AcceptedLinesAreSound(raw, c.lines, s.charts[c.book]);
    }
  }

  lemma {:induction false} OnlyAccountsAreMissing(chart: Chart, lines: seq<Line>)
    requires AllOneSided(lines) && DistinctNumbers(lines)
    ensures BookStore.LineRefusal(chart, lines) in {None, Some(BookStore.AccountMissing)}
  {
    if lines != [] {
      var earlier, last := lines[..|lines| - 1], lines[|lines| - 1];
      assert last in lines && forall l :: l in earlier ==> l in lines;
      OnlyAccountsAreMissing(chart, earlier);
    }
  }

  /** And the table never refuses such lines for anything but an account. */
  lemma ShapeIsNeverRefused(s: BookStore.State, j: Journal, role: BookStore.WriteRole, raw: RawLines)
    requires j.period < |s.periods| && Acceptable(raw) && Rendered(raw.lines, j.lines)
    ensures BookStore.InsertRefusal(s, j, role) !in {Some(BookStore.BadLine), Some(BookStore.Unbalanced)}
  {
    AcceptedLinesAreAJournal(raw, j.lines);
    if j.book in s.charts {
      OnlyAccountsAreMissing(s.charts[j.book], j.lines);
    }
  }
}
