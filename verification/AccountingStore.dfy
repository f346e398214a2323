/** The store's tables as fields of an object, with the commands that update
    them. Each method is proved against its step in BookStore. */
module AccountingStores {
  import opened Sums
  import opened JournalTables
  import opened ClosingJournal
  import opened BookStore
  import opened CloseInvariant
  import opened AcceptedCommands

  class AccountingStore {
    var charts: map<string, Chart>
    var periods: seq<Period>
    var controls: map<(string, nat), Control>
    var journals: seq<Journal>
    var snapshots: map<(string, nat), Snapshot>
    var openings: map<string, OpenRecord>
    const closingWriter: bool

    function View(): State
      reads this
    {
      State(charts, periods, controls, journals, snapshots, openings, closingWriter)
    }

    constructor (closingWriter: bool)
      ensures View() == EmptyState(closingWriter)
    {
      charts, periods, controls, journals, snapshots, openings := map[], [], map[], [], map[], map[];
      this.closingWriter := closingWriter;
    }

    method RegisterBook(c: Command) returns (reply: Reply)
      requires c.RegisterBook?
      modifies this`charts
      ensures View() == RegisterStep(old(View()), c).state && reply == RegisterStep(old(View()), c).reply
    {
      if c.book in charts {
        return Refused(DuplicateIdentity);
      }
      charts := charts[c.book := c.chart];
      return Registered;
    }

    // -------------------------------------------------------------- posting

    /** Insert the lines of the newest journal one by one, up to the first bad one. */
    method InsertLines(j: Journal) returns (refusal: Option<Refusal>)
      requires j.book in charts && journals != [] && journals[|journals| - 1] == j.(lines := [])
      modifies this`journals
      ensures refusal == LineRefusal(charts[j.book], j.lines)
      ensures refusal.None? ==> journals == old(journals)[..|old(journals)| - 1] + [j]
    {
      var earlier, inserted: seq<Line> := journals[..|journals| - 1], [];
      for i := 0 to |j.lines|
        invariant inserted == j.lines[..i] && journals == earlier + [j.(lines := inserted)]
        invariant LineRefusal(charts[j.book], j.lines[..i]).None?
      {
        var line := j.lines[i];
        NextLineDecides(charts[j.book], j.lines, i);
        if !Listed(charts[j.book], line.account) {
          FirstRefusalDecides(charts[j.book], j.lines, i + 1);
          return Some(AccountMissing);
        }
        if !OneSided(line) || line.number <= 0 || NumberTaken(inserted, line.number) {
          FirstRefusalDecides(charts[j.book], j.lines, i + 1);
          return Some(BadLine);
        }
        inserted := inserted + [line];
        journals := earlier + [j.(lines := inserted)];
      }
      assert j.lines[..|j.lines|] == j.lines;
      return None;
    }

    /** Insert a journal and its lines; on a refusal nothing stays behind. */
    method InsertJournal(j: Journal, role: WriteRole) returns (reply: Reply)
      requires j.period < |periods|
      modifies this`journals
      ensures View() == InsertOutcome(old(View()), j, role).state
      ensures reply == InsertOutcome(old(View()), j, role).reply
    {
      if JournalByKey(journals, j.key).Some? {
        return Refused(DuplicateIdentity);
      }
      if j.book !in charts {
        return Refused(UnknownBook);
      }
      if !MayInsert(View(), j.book, j.period, role) {
        return Refused(PeriodLocked);
      }
      if JournalByRef(journals, j.ref).Some? {
        return Refused(DuplicateIdentity);
      }
      var saved := journals;
      journals := journals + [j.(lines := [])];
      var refusal := InsertLines(j);
      if refusal.Some? {
        journals := saved;
        return Refused(refusal.value);
      }
      if j.lines == [] || !Balanced(j.lines) {
        journals := saved;
        return Refused(Unbalanced);
      }
      return Accepted(j.ref);
    }

    method PostProposal(c: Command) returns (reply: Reply)
      requires c.Post?
      modifies this`journals
      ensures View() == PostStep(old(View()), c).state && reply == PostStep(old(View()), c).reply
      ensures PeriodsOk(old(View())) ==> PostsSoundly(old(View()), c, Outcome(View(), reply))
    {
      if PeriodsOk(View()) {
        PostedExactlyWhen(View(), c);
      }
      var prior := JournalByKey(journals, c.key);
      if prior.Some? {
        return if prior.value.evidence != Payload(c.hash) then Refused(KeyConflict) else Replayed(prior.value.ref);
      }
      if exists l :: l in c.proposed && l.role == RETAINED_EARNINGS_ROLE {
        return Refused(ReservedRole);
      }
      if !Permits(c.policy, c.date) {
        return Refused(OutsidePolicy);
      }
      var lines: seq<Line> := [];
      for i := 0 to |c.proposed|
        invariant AllMapped(c.proposed[..i], c.policy.mapping)
        invariant lines == Resolved(c.proposed[..i], c.policy.mapping)
      {
        var l := c.proposed[i];
        if l.role !in c.policy.mapping {
          return Refused(RoleNotMapped);
        }
        assert c.proposed[..i + 1][..i] == c.proposed[..i];
        lines := lines + [Line(l.number, c.policy.mapping[l.role], l.role, l.debit, l.credit)];
      }
      assert c.proposed[..|c.proposed|] == c.proposed;
      if c.policy.book !in charts {
        return Refused(UnknownBook);
      }
      var covering := CoveringPeriod(periods, c.date);
      if covering.None? {
        return Refused(NoSuchPeriod);
      }
      if Effective(View(), c.policy.book, covering.value) != Open {
        return Refused(PeriodLocked);
      }
      reply := InsertJournal(
        Journal(Ref.Posted(c.id), c.policy.book, covering.value, c.date, lines, c.key, Payload(c.hash), true),
            Ordinary);
    }

    method PostAdjustingJournal(c: Command) returns (reply: Reply)
      requires c.Adjust?
      modifies this`journals
      ensures View() == AdjustStep(old(View()), c).state && reply == AdjustStep(old(View()), c).reply
      ensures Inv(old(View())) ==> AdjustsSoundly(old(View()), c, Outcome(View(), reply))
    {
      if Inv(View()) {
        AdjustmentIsSound(View(), c);
      }
      var prior := JournalByKey(journals, c.key);
      if prior.Some? {
        return if prior.value.evidence != Payload(c.hash) then Refused(KeyConflict) else Replayed(prior.value.ref);
      }
      if c.book !in charts {
        return Refused(UnknownBook);
      }
      var found := FindPeriod(periods, c.code);
      if found.None? {
        return Refused(NoSuchPeriod);
      }
      if !Covers(periods[found.value], c.date) {
        return Refused(OutsidePeriod);
      }
      if Effective(View(), c.book, found.value) == HardClosed {
        return Refused(PeriodLocked);
      }
      if forall a :: a in charts[c.book] ==> a.role.None? {
        return Refused(RoleNotMapped);
      }
      reply := InsertJournal(
        Journal(Ref.Posted(c.id), c.book, found.value, c.date, c.lines, c.key, Payload(c.hash), true), Adjusting);
    }

    method ReverseJournal(c: Command) returns (reply: Reply)
      requires c.Reverse?
      modifies this`journals
      ensures View() == ReverseStep(old(View()), c).state && reply == ReverseStep(old(View()), c).reply
    {
      var evidence := ReversalCommand(c.key, c.original, c.date, c.reason);
      var existing := JournalByRef(journals, ReversalOf(c.original));
      if existing.Some? {
        if existing.value.key != c.key {
          return Refused(AlreadyReversed);
        }
        return if existing.value.evidence != evidence then Refused(KeyConflict) else Replayed(existing.value.ref);
      }
      if JournalByKey(journals, c.key).Some? {
        return Refused(KeyConflict);
      }
      var found := JournalByRef(journals, c.original);
      if found.None? {
        return Refused(NoSuchJournal);
      }
      var original := found.value;
      if original.ref.ReversalOf? {
        return Refused(NotReversible);
      }
      if c.date < original.date {
        return Refused(BeforeOriginal);
      }
      if !Permits(c.policy, c.date) {
        return Refused(OutsidePolicy);
      }
      if original.book != c.policy.book {
        return Refused(WrongScope);
      }
      var covering := CoveringPeriod(periods, c.date);
      if covering.None? {
        return Refused(NoSuchPeriod);
      }
      if periods[covering.value].status == HardClosed {
        return Refused(PeriodLocked);
      }
      var lines: seq<Line> := [];
      for i := 0 to |original.lines|
        invariant lines == Opposite(original.lines[..i])
      {
        assert original.lines[..i + 1][..i] == original.lines[..i];
        var l := original.lines[i];
        lines := lines + [Line(l.number, l.account, l.role, l.credit, l.debit)];
      }
      assert original.lines[..|original.lines|] == original.lines;
      var saved := journals;
      reply := InsertJournal(
        Journal(ReversalOf(c.original), original.book, covering.value, c.date, lines, c.key, evidence, true), Reversal);
      if reply.Accepted? && !original.finalized {
        journals := saved;
        return Refused(NotFinalized);
      }
    }

    method OpenFiscalPeriod(c: Command) returns (reply: Reply)
      requires c.OpenPeriod?
      modifies this`periods, this`openings
      ensures View() == OpenStep(old(View()), c).state && reply == OpenStep(old(View()), c).reply
      ensures reply.PeriodOpen? && !reply.replayed <==> MayBeOpened(old(View()), c)
      ensures periods == if MayBeOpened(old(View()), c)
                         then old(periods) + [Period(c.code, c.start.value, c.end.value, Open)] else old(periods)
      ensures !reply.PeriodOpen? ==> View() == old(View())
    {
      var record := OpenRecord(c.entity, c.code, c.start, c.end, c.hash);
      var found := FindPeriod(periods, c.code);
      if c.openKey in openings {
        return if openings[c.openKey] != record || found.None? then Refused(KeyConflict)
            else PeriodOpen(found.value, true);
      }
      if found.Some? {
        var period := periods[found.value];
        if period.status != Open {
          return Refused(CannotReopen);
        }
        if c.start !in {None, Some(period.start)} || c.end !in {None, Some(period.end)} {
          return Refused(DatesDiffer);
        }
        if c.start.Some? != c.end.Some? {
          return Refused(OneDateOnly);
        }
        reply := PeriodOpen(found.value, true);
      } else {
        if c.start.None? || c.end.None? {
          return Refused(DatesRequired);
        }
        if c.end.value < c.start.value {
          return Refused(DatesReversed);
        }
        reply := PeriodOpen(|periods|, false);
        periods := periods + [Period(c.code, c.start.value, c.end.value, Open)];
      }
      openings := openings[c.openKey := record];
    }

    // ---------------------------------------------------------- period close

    /** Give every active book its own row; nobody's status moves. */
    method LockBookPeriod(p: nat)
      requires p < |periods|
      modifies this`controls
      ensures View() == Materialized(old(View()), p)
      ensures Locked(View(), p) && SameEffective(old(View()), View())
      ensures forall k :: k in old(controls) ==> k in controls && controls[k] == old(controls)[k]
      ensures forall k :: k in controls && k !in old(controls) ==>
                k.0 in charts && k.1 == p && controls[k].evidence.None?
    {
      var rows := map book | book in charts && (book, p) !in controls :: (book, p) := Control(periods[p].status, None);
      controls := rows + controls;
    }

    /** Close one book's row. Under the lock the calendar then shows the least-closed
        active book, and no other status moves. */
    method SetBookPeriodClosed(book: string, p: nat, control: Control)
      requires p < |periods|
      modifies this`controls, this`periods
      ensures View() == WithBookClosed(old(View()), book, p, control)
      ensures Locked(old(View()), p) && book in charts ==>
                && ShowsLeastClosed(View(), p)
                && forall b, q :: b in charts && 0 <= q < |periods| ==>
                     Effective(View(), b, q) == if b == book && q == p then control.status
                         else Effective(old(View()), b, q)
      ensures |periods| == |old(periods)| && periods[p] == old(periods[p]).(status := periods[p].status)
      ensures forall q :: 0 <= q < |periods| && q != p ==> periods[q] == old(periods)[q]
    {
      if Locked(View(), p) && book in charts {
        ClosedRowShows(View(), book, p, control);
      }
      controls := controls[(book, p) := control];
      periods := periods[p := periods[p].(status := AggregateStatus(charts.Keys, controls, p))];
    }

    method PostClosingJournal(book: string, p: nat) returns (reply: Reply)
      requires book in charts && p < |periods|
      modifies this`journals
      ensures View() == WithClosingJournal(old(View()), book, p).state
      ensures reply == WithClosingJournal(old(View()), book, p).reply
    {
      var period := periods[p];
      var rows := IncomeRows(charts[book], journals, Through(book, period.end));
      var outcome := BuildClosingLines(rows, EarningsMapped(charts[book]));
      match outcome
      case NothingToClose => return Accepted(Ref.Closing(period.code, book));
      case MappingMissing => return Refused(EarningsNotMapped);
      case ToPost(lines) =>
        reply := InsertJournal(
          Journal(Ref.Closing(period.code, book), book, p, period.end, lines, ClosingKey(period.code, book),
            ClosingLines(period.code, book, lines), false),
          PeriodClosing);
    }

    /** Insert the snapshot row, then its lines one by one. */
    method StoreSnapshot(book: string, p: nat, lines: seq<Row>, count: nat, key: Key)
      modifies this`snapshots
      ensures snapshots == old(snapshots)[(book, p) := Snapshot(lines, count, key)]
    {
      snapshots := snapshots[(book, p) := Snapshot([], count, key)];
      for i := 0 to |lines|
        invariant snapshots == old(snapshots)[(book, p) := Snapshot(lines[..i], count, key)]
      {
        assert lines[..i] + [lines[i]] == lines[..i + 1];
        snapshots := snapshots[(book, p) := Snapshot(snapshots[(book, p)].rows + [lines[i]], count, key)];
      }
      assert lines[..|lines|] == lines;
    }

    method PersistPeriodClose(book: string, p: nat, key: Key) returns (reply: Reply)
      requires book in charts && p < |periods| && (book, p) in controls
      modifies this`journals, this`snapshots, this`controls, this`periods
      ensures View() == PersistClose(old(View()), book, p, key).state
      ensures reply == PersistClose(old(View()), book, p, key).reply
    {
      var saved := journals;
      reply := PostClosingJournal(book, p);
      if reply.Refused? {
        return;
      }
      var end := periods[p].end;
      var lines := Rows(charts[book], journals, Through(book, end));
      var count := JournalCount(journals, Through(book, end));
      if exists k :: k in snapshots && snapshots[k].key == key {
        journals := saved;
        return Refused(CloseKeyUsed);
      }
      if (book, p) in snapshots {
        journals := saved;
        return Refused(DuplicateIdentity);
      }
      StoreSnapshot(book, p, lines, count, key);
      SetBookPeriodClosed(book, p, controls[(book, p)].(status := HardClosed));
      return Closed(HardClosed, count, false);
    }

    /** The cascade under the lock; a refusal leaves the locked state. */
    method CloseLockedPeriod(p: nat, c: Command) returns (reply: Reply)
      requires c.Close? && c.status != Open && c.book in charts && p < |periods| && (c.book, p) in controls
      modifies this`journals, this`snapshots, this`controls, this`periods
      ensures reply == CloseLocked(old(View()), p, c).reply
      ensures View() == if reply.Refused? then old(View()) else CloseLocked(old(View()), p, c).state
    {
      var control := controls[(c.book, p)];
      if control.status == HardClosed {
        if c.status == SoftClosed {
          return Refused(HardCloseIsFinal);
        }
        if (c.book, p) !in snapshots {
          return Refused(SnapshotMissing);
        }
        var snapshot := snapshots[(c.book, p)];
        return if snapshot.key != c.key then Refused(PeriodLocked) else Closed(HardClosed, snapshot.count, true);
      }
      if control.status == c.status {
        if control.evidence.None? {
          return Refused(EvidenceMissing);
        }
        var evidence := control.evidence.value;
        return if evidence.key != c.key then Refused(KeyConflict) else Closed(SoftClosed, evidence.count, true);
      }
      var end := periods[p].end;
      if c.status == SoftClosed {
        if exists k :: k in controls && controls[k].evidence.Some? && controls[k].evidence.value.key == c.key {
          return Refused(CloseKeyUsed);
        }
        var count := JournalCount(journals, Through(c.book, end));
        SetBookPeriodClosed(c.book, p, Control(SoftClosed, Some(SoftEvidence(c.key, count))));
        return Closed(SoftClosed, count, false);
      }
      if !c.binderLoads {
        return Refused(BinderUnavailable);
      }
      if !RowsBalance(Rows(charts[c.book], journals, Through(c.book, end))) {
        return Refused(BinderUnbalanced);
      }
      reply := PersistPeriodClose(c.book, p, c.key);
    }

    method CloseFiscalPeriod(c: Command) returns (reply: Reply)
      requires c.Close?
      modifies this`journals, this`snapshots, this`controls, this`periods
      ensures View() == CloseStep(old(View()), c).state && reply == CloseStep(old(View()), c).reply
      ensures ClosesSoundly(old(View()), c, Outcome(View(), reply))
    {
      if c.status == Open {
        return Refused(BadStatus);
      }
      if c.book !in charts {
        return Refused(UnknownBook);
      }
      var found := FindPeriod(periods, c.code);
      if found.None? {
        return Refused(NoSuchPeriod);
      }
      var p := found.value;
      var saved := controls;
      LockBookPeriod(p);
      reply := CloseLockedPeriod(p, c);
      if reply.Refused? {
        controls := saved;
      }
      CloseCountsItsJournals(old(View()), c);
    }
  }
}
