/** The accounting store of one tenant as a state machine: what each command
    does to the journals, period controls, calendar and close snapshots.

    A refused command rolls its transaction back, so it leaves the state as it
    was. A journal insert also passes the guards of the database migrations. */
module BookStore {
  import opened Sums
  import opened JournalTables
  import opened ClosingJournal

  datatype Status = Open | SoftClosed | HardClosed

  /** A row of fiscal_period; a period is identified by its place in the table. */
  datatype Period = Period(code: int, start: Date, end: Date, status: Status)

  datatype SoftEvidence = SoftEvidence(key: Key, count: nat)

  /** A row of accounting_book_period_control. */
  datatype Control = Control(status: Status, evidence: Option<SoftEvidence>)

  /** A trial_balance_snapshot with its lines. */
  datatype Snapshot = Snapshot(rows: seq<Row>, count: nat, key: Key)

  /** A row of fiscal_period_open_command. */
  datatype OpenRecord = OpenRecord(entity: string, code: int, start: Option<Date>, end: Option<Date>, hash: string)

  /** The active books are those with a chart. `closingWriter` says whether the
      session's login may write into soft-closed periods. */
  datatype State = State(
    charts: map<string, Chart>,
    periods: seq<Period>,
    controls: map<(string, nat), Control>,
    journals: seq<Journal>,
    snapshots: map<(string, nat), Snapshot>,
    openings: map<string, OpenRecord>,
    closingWriter: bool)

  function EmptyState(closingWriter: bool): State {
    State(map[], [], map[], [], map[], map[], closingWriter)
  }

  datatype Policy = Policy(book: string, start: Date, end: Date, mapping: map<string, string>)

  datatype Command =
    | Post(key: Key, hash: string, id: string, date: Date, proposed: seq<ProposedLine>, policy: Policy)
    | Adjust(key: Key, hash: string, id: string, book: string, code: int, date: Date, lines: seq<Line>)
    | Reverse(original: Ref, date: Date, reason: string, key: Key, policy: Policy)
    | OpenPeriod(entity: string, code: int, start: Option<Date>, end: Option<Date>, openKey: string, hash: string)
    | Close(book: string, code: int, status: Status, key: Key, binderLoads: bool)
    | RegisterBook(book: string, chart: Chart)

  datatype Refusal =
    | KeyConflict | ReservedRole | RoleNotMapped | UnknownBook | NoSuchPeriod | PeriodLocked
    | OutsidePeriod | OutsidePolicy | DuplicateIdentity | AccountMissing | BadLine | Unbalanced
    | NoSuchJournal | AlreadyReversed | NotReversible | BeforeOriginal | WrongScope | NotFinalized
    | CannotReopen | DatesDiffer | DatesRequired | DatesReversed | OneDateOnly
    | BadStatus | HardCloseIsFinal | SnapshotMissing | EvidenceMissing | CloseKeyUsed
    | BinderUnavailable | BinderUnbalanced | EarningsNotMapped

  datatype Reply =
    | Accepted(ref: Ref)
    | Replayed(ref: Ref)
    | Closed(status: Status, count: nat, replayed: bool)
    | PeriodOpen(period: nat, replayed: bool)
    | Registered
    | Refused(why: Refusal)

  datatype Outcome = Outcome(state: State, reply: Reply)

  function Refuse(s: State, why: Refusal): Outcome {
    Outcome(s, Refused(why))
  }

  // ------------------------------------------------------------------ lookups

  function FindPeriod(ps: seq<Period>, code: int): (found: Option<nat>)
    ensures found.Some? ==> found.value < |ps| && ps[found.value].code == code
    ensures found.None? ==> forall p :: 0 <= p < |ps| ==> ps[p].code != code
  {
    if ps == [] then None
    else if ps[|ps| - 1].code == code then Some(|ps| - 1)
    else FindPeriod(ps[..|ps| - 1], code)
  }

  predicate Covers(period: Period, date: Date) {
    period.start <= date <= period.end
  }

  /** The period a dated lookup finds. */
  function CoveringPeriod(ps: seq<Period>, date: Date): (found: Option<nat>)
    ensures found.Some? ==> found.value < |ps| && Covers(ps[found.value], date)
    ensures found.None? ==> forall p :: 0 <= p < |ps| ==> !Covers(ps[p], date)
  {
    if ps == [] then None
    else if Covers(ps[|ps| - 1], date) then Some(|ps| - 1)
    else CoveringPeriod(ps[..|ps| - 1], date)
  }

  function JournalByKey(js: seq<Journal>, key: Key): (found: Option<Journal>)
    ensures found.Some? ==> found.value in js && found.value.key == key
    ensures found.None? ==> forall j :: j in js ==> j.key != key
  {
    if js == [] then None
    else if js[|js| - 1].key == key then Some(js[|js| - 1])
    else JournalByKey(js[..|js| - 1], key)
  }

  function JournalByRef(js: seq<Journal>, ref: Ref): (found: Option<Journal>)
    ensures found.Some? ==> found.value in js && found.value.ref == ref
    ensures found.None? ==> forall j :: j in js ==> j.ref != ref
  {
    if js == [] then None
    else if js[|js| - 1].ref == ref then Some(js[|js| - 1])
    else JournalByRef(js[..|js| - 1], ref)
  }

  // ----------------------------------------------------------- period control

  /** COALESCE(control status, calendar status): a book without its own control
      row follows the calendar. */
  function Effective(s: State, book: string, p: nat): Status
    requires p < |s.periods|
  {
    if (book, p) in s.controls then s.controls[(book, p)].status else s.periods[p].status
  }

  /** Give every active book its own control row for the period. */
  function Materialized(s: State, p: nat): State
    requires p < |s.periods|
  {
    s.(controls :=
      (map book | book in s.charts && (book, p) !in s.controls :: (book, p) := Control(s.periods[p].status, None))
      + s.controls)
  }

  /** The calendar status over the control rows of the active books. */
  function AggregateStatus(books: set<string>, controls: map<(string, nat), Control>, p: nat): Status {
    var rows := set book | book in books && (book, p) in controls;
    if rows == {} then Open
    else if forall book :: book in rows ==> controls[(book, p)].status == HardClosed then HardClosed
    else if forall book :: book in rows ==> controls[(book, p)].status != Open then SoftClosed
    else Open
  }

  /** Close one book's row and recompute the calendar. */
  function WithBookClosed(s: State, book: string, p: nat, control: Control): State
    requires p < |s.periods|
  {
    var controls := s.controls[(book, p) := control];
    s.(controls := controls,
       periods := s.periods[p := s.periods[p].(status := AggregateStatus(s.charts.Keys, controls, p))])
  }

  // --------------------------------------------------------- journal insertion

  datatype WriteRole = Ordinary | Adjusting | Reversal | PeriodClosing

  /** guard_period_insert: into an open book period anyone may insert; into a
      soft-closed one only the closing writer's special journals. */
  predicate MayInsert(s: State, book: string, p: nat, role: WriteRole)
    requires p < |s.periods|
  {
    || Effective(s, book, p) == Open
    || (Effective(s, book, p) == SoftClosed && role != Ordinary && s.closingWriter)
  }

  predicate AllListed(chart: Chart, lines: seq<Line>) {
    forall l :: l in lines ==> Listed(chart, l.account)
  }

  predicate NumberTaken(lines: seq<Line>, number: int) {
    exists l :: l in lines && l.number == number
  }

  /** Why the table refuses one more line of a journal. */
  function NextLineRefusal(chart: Chart, earlier: seq<Line>, line: Line): Option<Refusal> {
    if !Listed(chart, line.account) then Some(AccountMissing)
    else if !OneSided(line) || line.number <= 0 || NumberTaken(earlier, line.number) then Some(BadLine)
    else None
  }

  /** Lines are inserted one by one; the first bad one decides. */
  function LineRefusal(chart: Chart, lines: seq<Line>): Option<Refusal> {
    if lines == [] then None
    else
      var earlier := lines[..|lines| - 1];
      var refusal := LineRefusal(chart, earlier);
      if refusal.Some? then refusal else NextLineRefusal(chart, earlier, lines[|lines| - 1])
  }

  /** Some line is refused unless all are on the chart, one-sided and numbered apart. */
  lemma {:induction false} NoLineIsRefusedExactlyWhen(chart: Chart, lines: seq<Line>)
    ensures LineRefusal(chart, lines).None? <==>
            AllListed(chart, lines) && AllOneSided(lines) && DistinctNumbers(lines)
  {
    if lines != [] {
      var earlier, last := lines[..|lines| - 1], lines[|lines| - 1];
      NoLineIsRefusedExactlyWhen(chart, earlier);
      assert forall l :: l in lines <==> l in earlier || l == last;
    }
  }

  lemma {:induction false} FirstRefusalDecides(chart: Chart, lines: seq<Line>, n: nat)
    requires n <= |lines| && LineRefusal(chart, lines[..n]).Some?
    ensures LineRefusal(chart, lines) == LineRefusal(chart, lines[..n])
  {
    if n == |lines| {
      assert lines[..n] == lines;
    } else {
      var earlier := lines[..|lines| - 1];
      assert earlier[..n] == lines[..n];
      FirstRefusalDecides(chart, earlier, n);
    }
  }

  lemma NextLineDecides(chart: Chart, lines: seq<Line>, n: nat)
    requires n < |lines| && LineRefusal(chart, lines[..n]).None?
    ensures LineRefusal(chart, lines[..n + 1]) == NextLineRefusal(chart, lines[..n], lines[n])
  {
    assert lines[..n + 1][..n] == lines[..n];
  }

  /** Why the database would refuse a journal and its proposal record. */
  function InsertRefusal(s: State, j: Journal, role: WriteRole): Option<Refusal>
    requires j.period < |s.periods|
  {
    if JournalByKey(s.journals, j.key).Some? then Some(DuplicateIdentity)
    else if j.book !in s.charts then Some(UnknownBook)
    else if !MayInsert(s, j.book, j.period, role) then Some(PeriodLocked)
    else if JournalByRef(s.journals, j.ref).Some? then Some(DuplicateIdentity)
    else if LineRefusal(s.charts[j.book], j.lines).Some? then LineRefusal(s.charts[j.book], j.lines)
    else if j.lines == [] || !Balanced(j.lines) then Some(Unbalanced)
    else None
  }

  function Inserted(s: State, j: Journal): State {
    s.(journals := s.journals + [j])
  }

  function InsertOutcome(s: State, j: Journal, role: WriteRole): Outcome
    requires j.period < |s.periods|
  {
    var refusal := InsertRefusal(s, j, role);
    if refusal.Some? then Refuse(s, refusal.value) else Outcome(Inserted(s, j), Accepted(j.ref))
  }

  // ------------------------------------------------------------- posting steps

  predicate Permits(policy: Policy, date: Date) {
    policy.start <= date <= policy.end
  }

  function PostStep(s: State, c: Command): Outcome
    requires c.Post?
  {
    var prior := JournalByKey(s.journals, c.key);
    if prior.Some? then
      if prior.value.evidence != Payload(c.hash) then Refuse(s, KeyConflict)
      else Outcome(s, Replayed(prior.value.ref))
    else if exists l :: l in c.proposed && l.role == RETAINED_EARNINGS_ROLE then Refuse(s, ReservedRole)
    else if !Permits(c.policy, c.date) then Refuse(s, OutsidePolicy)
    else if !AllMapped(c.proposed, c.policy.mapping) then Refuse(s, RoleNotMapped)
    else if c.policy.book !in s.charts then Refuse(s, UnknownBook)
    else
      var covering := CoveringPeriod(s.periods, c.date);
      if covering.None? then Refuse(s, NoSuchPeriod)
      else if Effective(s, c.policy.book, covering.value) != Open then Refuse(s, PeriodLocked)
      else
        InsertOutcome(s,
          Journal(Ref.Posted(c.id), c.policy.book, covering.value, c.date, Resolved(c.proposed, c.policy.mapping),
            c.key, Payload(c.hash), true),
          Ordinary)
  }

  function AdjustStep(s: State, c: Command): Outcome
    requires c.Adjust?
  {
    var prior := JournalByKey(s.journals, c.key);
    if prior.Some? then
      if prior.value.evidence != Payload(c.hash) then Refuse(s, KeyConflict)
      else Outcome(s, Replayed(prior.value.ref))
    else if c.book !in s.charts then Refuse(s, UnknownBook)
    else
      var found := FindPeriod(s.periods, c.code);
      if found.None? then Refuse(s, NoSuchPeriod)
      else if !Covers(s.periods[found.value], c.date) then Refuse(s, OutsidePeriod)
      else if Effective(s, c.book, found.value) == HardClosed then Refuse(s, PeriodLocked)
      else if forall a :: a in s.charts[c.book] ==> a.role.None? then Refuse(s, RoleNotMapped)
      else
        InsertOutcome(s,
          Journal(Ref.Posted(c.id), c.book, found.value, c.date, c.lines, c.key, Payload(c.hash), true),
          Adjusting)
  }

  function ReverseStep(s: State, c: Command): Outcome
    requires c.Reverse?
  {
    var evidence := ReversalCommand(c.key, c.original, c.date, c.reason);
    var existing := JournalByRef(s.journals, ReversalOf(c.original));
    var original := JournalByRef(s.journals, c.original);
    if existing.Some? then
      if existing.value.key != c.key then Refuse(s, AlreadyReversed)
      else if existing.value.evidence != evidence then Refuse(s, KeyConflict)
      else Outcome(s, Replayed(existing.value.ref))
    else if JournalByKey(s.journals, c.key).Some? then Refuse(s, KeyConflict)
    else if original.None? then Refuse(s, NoSuchJournal)
    else if original.value.ref.ReversalOf? then Refuse(s, NotReversible)
    else if c.date < original.value.date then Refuse(s, BeforeOriginal)
    else if !Permits(c.policy, c.date) then Refuse(s, OutsidePolicy)
    else if original.value.book != c.policy.book then Refuse(s, WrongScope)
    else
      var covering := CoveringPeriod(s.periods, c.date);
      if covering.None? then Refuse(s, NoSuchPeriod)
      else if s.periods[covering.value].status == HardClosed then Refuse(s, PeriodLocked)
      else
        var inserted := InsertOutcome(s,
          Journal(ReversalOf(c.original), original.value.book, covering.value, c.date,
            Opposite(original.value.lines), c.key, evidence, true),
          Reversal);
        // journal_reversal_second_finalization_guard: only a journal with a receipt is reversed
        if inserted.reply.Accepted? && !original.value.finalized then Refuse(s, NotFinalized) else inserted
  }

  function OpenStep(s: State, c: Command): Outcome
    requires c.OpenPeriod?
  {
    var record := OpenRecord(c.entity, c.code, c.start, c.end, c.hash);
    var found := FindPeriod(s.periods, c.code);
    if c.openKey in s.openings then
      if s.openings[c.openKey] != record || found.None? then Refuse(s, KeyConflict)
      else Outcome(s, PeriodOpen(found.value, true))
    else if found.Some? then
      var period := s.periods[found.value];
      if period.status != Open then Refuse(s, CannotReopen)
      else if c.start !in {None, Some(period.start)} || c.end !in {None, Some(period.end)} then Refuse(s, DatesDiffer)
      // the CHECK of fiscal_period_open_command: both dates or none
      else if c.start.Some? != c.end.Some? then Refuse(s, OneDateOnly)
      else Outcome(s.(openings := s.openings[c.openKey := record]), PeriodOpen(found.value, true))
    else if c.start.None? || c.end.None? then Refuse(s, DatesRequired)
    else if c.end.value < c.start.value then Refuse(s, DatesReversed)
    else
      Outcome(
        s.(periods := s.periods + [Period(c.code, c.start.value, c.end.value, Open)],
           openings := s.openings[c.openKey := record]),
        PeriodOpen(|s.periods|, false))
  }

  // -------------------------------------------------------------- period close

  function JournalCount(js: seq<Journal>, sel: Journal -> bool): (count: nat) {
    if js == [] then 0 else JournalCount(js[..|js| - 1], sel) + if sel(js[|js| - 1]) then 1 else 0
  }

  /** The journals of a book dated by a day, by their place in the table. */
  function DatedBy(js: seq<Journal>, book: string, day: Date): set<nat> {
    set i: nat | i < |js| && js[i].book == book && js[i].date <= day
  }

  lemma {:induction false} CountIsSize(js: seq<Journal>, book: string, day: Date)
    ensures JournalCount(js, Through(book, day)) == |DatedBy(js, book, day)|
  {
    if js != [] {
      var init, n := js[..|js| - 1], |js| - 1;
      CountIsSize(init, book, day);
      assert n !in DatedBy(init, book, day);
      assert DatedBy(js, book, day) ==
             DatedBy(init, book, day) + if Through(book, day)(js[n]) then {n} else {};
    }
  }

  function TrialBalance(s: State, book: string, date: Date): seq<Row>
    requires book in s.charts
  {
    Rows(s.charts[book], s.journals, Through(book, date))
  }

  function RowDebit(): Row -> int { (r: Row) => r.debit }
  function RowCredit(): Row -> int { (r: Row) => r.credit }

  predicate RowsBalance(rows: seq<Row>) {
    Sum(rows, RowDebit()) == Sum(rows, RowCredit())
  }

  predicate EarningsMapped(chart: Chart) {
    exists a :: a in chart && a.code == RETAINED_EARNINGS && a.role == Some(RETAINED_EARNINGS_ROLE)
  }

  function ClosingJournalOf(s: State, book: string, p: nat): Journal
    requires book in s.charts && p < |s.periods|
  {
    var period := s.periods[p];
    var lines := ClosingLinesOf(IncomeRows(s.charts[book], s.journals, Through(book, period.end)));
    Journal(Ref.Closing(period.code, book), book, p, period.end, lines,
      ClosingKey(period.code, book), ClosingLines(period.code, book, lines), false)
  }

  /** Post the closing journal, if there is anything to close. */
  function WithClosingJournal(s: State, book: string, p: nat): Outcome
    requires book in s.charts && p < |s.periods|
  {
    var closing := ClosingJournalOf(s, book, p);
    if closing.lines == [] then Outcome(s, Accepted(closing.ref))
    else if !EarningsMapped(s.charts[book]) then Refuse(s, EarningsNotMapped)
    else InsertOutcome(s, closing, PeriodClosing)
  }

  predicate SnapshotKeyUsed(s: State, key: Key) {
    exists k :: k in s.snapshots && s.snapshots[k].key == key
  }

  predicate SoftKeyUsed(s: State, key: Key) {
    exists k :: k in s.controls && s.controls[k].evidence.Some? && s.controls[k].evidence.value.key == key
  }

  /** Freeze the trial balance and lock the book's period. */
  function Frozen(s: State, book: string, p: nat, key: Key): State
    requires book in s.charts && p < |s.periods| && (book, p) in s.controls
  {
    var end := s.periods[p].end;
    var snapshot := Snapshot(TrialBalance(s, book, end), JournalCount(s.journals, Through(book, end)), key);
    WithBookClosed(s.(snapshots := s.snapshots[(book, p) := snapshot]), book, p,
      s.controls[(book, p)].(status := HardClosed))
  }

  function PersistClose(s: State, book: string, p: nat, key: Key): Outcome
    requires book in s.charts && p < |s.periods| && (book, p) in s.controls
  {
    var posted := WithClosingJournal(s, book, p);
    if posted.reply.Refused? then posted
    else if SnapshotKeyUsed(posted.state, key) then Refuse(s, CloseKeyUsed)
    else if (book, p) in posted.state.snapshots then Refuse(s, DuplicateIdentity)
    else
      var frozen := Frozen(posted.state, book, p, key);
      Outcome(frozen, Closed(HardClosed, frozen.snapshots[(book, p)].count, false))
  }

  /** A hard close either changes nothing or freezes the ledger it posted to. */
  lemma PersistCloseCases(s: State, book: string, p: nat, key: Key)
    requires book in s.charts && p < |s.periods| && (book, p) in s.controls
    ensures var posted, t := WithClosingJournal(s, book, p), PersistClose(s, book, p, key).state;
            || t == s
            || (&& (book, p) in posted.state.controls && (book, p) !in posted.state.snapshots
                && posted.state == s.(journals := posted.state.journals)
                && t == Frozen(posted.state, book, p, key))
  {
  }

  function PersistSoftClose(s: State, book: string, p: nat, key: Key): Outcome
    requires p < |s.periods|
  {
    var count := JournalCount(s.journals, Through(book, s.periods[p].end));
    if SoftKeyUsed(s, key) then Refuse(s, CloseKeyUsed)
    else
      Outcome(WithBookClosed(s, book, p, Control(SoftClosed, Some(SoftEvidence(key, count)))),
        Closed(SoftClosed, count, false))
  }

  function ReplayHardClose(s: State, book: string, p: nat, key: Key): Outcome {
    if (book, p) !in s.snapshots then Refuse(s, SnapshotMissing)
    else if s.snapshots[(book, p)].key != key then Refuse(s, PeriodLocked)
    else Outcome(s, Closed(HardClosed, s.snapshots[(book, p)].count, true))
  }

  function ReplaySoftClose(s: State, evidence: Option<SoftEvidence>, key: Key): Outcome {
    if evidence.None? then Refuse(s, EvidenceMissing)
    else if evidence.value.key != key then Refuse(s, KeyConflict)
    else Outcome(s, Closed(SoftClosed, evidence.value.count, true))
  }

  /** The decision cascade of a close, after the book's row has been locked. */
  function CloseLocked(s: State, p: nat, c: Command): Outcome
    requires c.Close? && c.status != Open && c.book in s.charts && p < |s.periods| && (c.book, p) in s.controls
  {
    var control := s.controls[(c.book, p)];
    if control.status == HardClosed then
      if c.status == SoftClosed then Refuse(s, HardCloseIsFinal) else ReplayHardClose(s, c.book, p, c.key)
    else if control.status == c.status then ReplaySoftClose(s, control.evidence, c.key)
    else if c.status == SoftClosed then PersistSoftClose(s, c.book, p, c.key)
    else if !c.binderLoads then Refuse(s, BinderUnavailable)
    else if !RowsBalance(TrialBalance(s, c.book, s.periods[p].end)) then Refuse(s, BinderUnbalanced)
    else PersistClose(s, c.book, p, c.key)
  }

  /** A close under the row lock replays, refuses, or does one of the two closes. */
  lemma CloseLockedCases(s: State, p: nat, c: Command)
    requires c.Close? && c.status != Open && c.book in s.charts && p < |s.periods| && (c.book, p) in s.controls
    ensures var outcome, status := CloseLocked(s, p, c), s.controls[(c.book, p)].status;
            || (outcome.state == s && (outcome.reply.Closed? ==> outcome.reply.replayed))
            || (c.status == SoftClosed && status == Open && outcome == PersistSoftClose(s, c.book, p, c.key))
            || (c.status == HardClosed && status != HardClosed && outcome == PersistClose(s, c.book, p, c.key))
  {
  }

  function CloseStep(s: State, c: Command): Outcome
    requires c.Close?
  {
    if c.status == Open then Refuse(s, BadStatus)
    else if c.book !in s.charts then Refuse(s, UnknownBook)
    else
      var found := FindPeriod(s.periods, c.code);
      if found.None? then Refuse(s, NoSuchPeriod)
      else
        var outcome := CloseLocked(Materialized(s, found.value), found.value, c);
        if outcome.reply.Refused? then Refuse(s, outcome.reply.why) else outcome
  }

  /** A new book is provisioned with its chart; books are never retired. */
  function RegisterStep(s: State, c: Command): Outcome
    requires c.RegisterBook?
  {
    if c.book in s.charts then Refuse(s, DuplicateIdentity)
    else Outcome(s.(charts := s.charts[c.book := c.chart]), Registered)
  }

  function Step(s: State, c: Command): Outcome {
    match c
    case Post(_, _, _, _, _, _) => PostStep(s, c)
    case Adjust(_, _, _, _, _, _, _) => AdjustStep(s, c)
    case Reverse(_, _, _, _, _) => ReverseStep(s, c)
    case OpenPeriod(_, _, _, _, _, _) => OpenStep(s, c)
    case Close(_, _, _, _, _) => CloseStep(s, c)
    case RegisterBook(_, _) => RegisterStep(s, c)
  }

  function Run(s: State, commands: seq<Command>): State {
    if commands == [] then s else Step(Run(s, commands[..|commands| - 1]), commands[|commands| - 1]).state
  }
}
