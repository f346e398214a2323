/** When a command is accepted and what it then leaves behind, told from the
    tables and not from the order in which the code asks them. */
module AcceptedCommands {
  import opened Sums
  import opened JournalTables
  import opened ClosingJournal
  import opened BookStore
  import opened CloseInvariant
  import opened SnapshotTheorems

  /** No journal has taken the key or the reference. */
  predicate Unused(s: State, key: Key, ref: Ref) {
    forall j :: j in s.journals ==> j.key != key && j.ref != ref
  }

  /** What the database asks of the lines of a journal. */
  predicate SoundLines(chart: Chart, lines: seq<Line>) {
    lines != [] && AllListed(chart, lines) && AllOneSided(lines) && DistinctNumbers(lines) && Balanced(lines)
  }

  predicate SomeRoleMapped(chart: Chart) {
    exists a :: a in chart && a.role.Some?
  }

  /** A book writes adjustments, reversals and closings into an open period, and into a
      soft-closed one where the closing writer logs in. */
  predicate MayWriteSpecial(s: State, book: string, p: nat)
    requires p < |s.periods|
  {
    || Effective(s, book, p) == Open
    || (Effective(s, book, p) == SoftClosed && s.closingWriter)
  }

  lemma InsertedExactlyWhen(s: State, j: Journal, role: WriteRole)
    requires j.period < |s.periods|
    ensures InsertRefusal(s, j, role).None? <==>
            && Unused(s, j.key, j.ref)
            && j.book in s.charts
            && (if role == Ordinary then Effective(s, j.book, j.period) == Open
                else MayWriteSpecial(s, j.book, j.period))
            && SoundLines(s.charts[j.book], j.lines)
  {
    if j.book in s.charts {
      NoLineIsRefusedExactlyWhen(s.charts[j.book], j.lines);
    }
  }

  // -------------------------------------------------------------------- posts

  /** Periods are disjoint, so one at most covers a date. */
  lemma OnlyCovering(s: State, date: Date, p: nat)
    requires PeriodsOk(s) && p < |s.periods| && Covers(s.periods[p], date)
    ensures forall q :: 0 <= q < |s.periods| && Covers(s.periods[q], date) ==> q == p
  {
    forall q | 0 <= q < |s.periods| && Covers(s.periods[q], date) ensures q == p {
      assert q == p || Disjoint(s.periods[q], s.periods[p]);
    }
  }

  predicate MayBePosted(s: State, c: Command)
    requires c.Post?
  {
    && Unused(s, c.key, Ref.Posted(c.id)) && c.policy.start <= c.date <= c.policy.end
    && (forall l :: l in c.proposed ==> l.role != RETAINED_EARNINGS_ROLE && l.role in c.policy.mapping)
    && c.policy.book in s.charts
    && SoundLines(s.charts[c.policy.book], Resolved(c.proposed, c.policy.mapping))
    && exists p :: 0 <= p < |s.periods| && s.periods[p].start <= c.date <= s.periods[p].end
                && Effective(s, c.policy.book, p) == Open
  }

  /** The journal of an accepted post. */
  predicate IsPosting(s: State, c: Command, j: Journal)
    requires c.Post?
  {
    && j.ref == Ref.Posted(c.id) && j.book == c.policy.book && j.date == c.date
    && ResolvedTo(c.proposed, c.policy.mapping, j.lines)
    && j.key == c.key && j.evidence == Payload(c.hash) && j.finalized
    && j.period < |s.periods| && s.periods[j.period].start <= c.date <= s.periods[j.period].end
  }

  /** Exactly one journal is added, at the end, and nothing else is written. */
  predicate OneAdded(s: State, t: State, j: Journal) {
    t == s.(journals := s.journals + [j])
  }

  lemma PostIsInserted(s: State, c: Command)
    requires c.Post? && PostStep(s, c).reply.Accepted?
    ensures exists j :: IsPosting(s, c, j) && OneAdded(s, PostStep(s, c).state, j)
  {
    ResolvedInPlace(c.proposed, c.policy.mapping);
    var j := Journal(Ref.Posted(c.id), c.policy.book, CoveringPeriod(s.periods, c.date).value, c.date,
      Resolved(c.proposed, c.policy.mapping), c.key, Payload(c.hash), true);
    assert IsPosting(s, c, j) && OneAdded(s, PostStep(s, c).state, j);
  }

  /** A post is accepted exactly when nothing stands against it, and then adds its one
      journal; otherwise nothing is written. */
  ghost predicate PostsSoundly(s: State, c: Command, outcome: Outcome)
    requires c.Post?
  {
    && (outcome.reply.Accepted? <==> MayBePosted(s, c))
    && (!outcome.reply.Accepted? ==> outcome.state == s)
    && (outcome.reply.Accepted? ==> exists j :: IsPosting(s, c, j) && OneAdded(s, outcome.state, j))
  }

  lemma PostedExactlyWhen(s: State, c: Command)
    requires c.Post? && PeriodsOk(s)
    ensures PostsSoundly(s, c, PostStep(s, c))
  {
    var covering := CoveringPeriod(s.periods, c.date);
    if covering.Some? && AllMapped(c.proposed, c.policy.mapping) {
      var j := Journal(Ref.Posted(c.id), c.policy.book, covering.value, c.date,
        Resolved(c.proposed, c.policy.mapping), c.key, Payload(c.hash), true);
      InsertedExactlyWhen(s, j, Ordinary);
      OnlyCovering(s, c.date, covering.value);
    }
    if PostStep(s, c).reply.Accepted? {
      PostIsInserted(s, c);
    }
  }

  // ------------------------------------------------------------- adjustments

  /** A period of the command's code holds its date, and the book may still write
      special journals into it. */
  predicate PeriodAdmits(s: State, c: Command, p: nat)
    requires c.Adjust? && p < |s.periods|
  {
    && s.periods[p].code == c.code && s.periods[p].start <= c.date <= s.periods[p].end
    && MayWriteSpecial(s, c.book, p)
  }

  predicate MayBeAdjusted(s: State, c: Command)
    requires c.Adjust?
  {
    && Unused(s, c.key, Ref.Posted(c.id))
    && c.book in s.charts && SomeRoleMapped(s.charts[c.book]) && SoundLines(s.charts[c.book], c.lines)
    && exists p :: 0 <= p < |s.periods| && PeriodAdmits(s, c, p)
  }

  /** The journal of an accepted adjustment. */
  predicate IsAdjustment(s: State, c: Command, j: Journal)
    requires c.Adjust?
  {
    && j.ref == Ref.Posted(c.id) && j.book == c.book && j.date == c.date && j.lines == c.lines
    && j.key == c.key && j.evidence == Payload(c.hash) && j.finalized
    && j.period < |s.periods| && s.periods[j.period].code == c.code
  }

  /** An adjustment is accepted exactly when nothing stands against it, and then
      adds its one journal; otherwise nothing is written. The invariant is kept. */
  ghost predicate AdjustsSoundly(s: State, c: Command, outcome: Outcome)
    requires c.Adjust?
  {
    && (outcome.reply.Accepted? <==> MayBeAdjusted(s, c))
    && (!outcome.reply.Accepted? ==> outcome.state == s)
    && (outcome.reply.Accepted? ==>
          exists j :: IsAdjustment(s, c, j) && OneAdded(s, outcome.state, j))
    && Inv(outcome.state)
  }

  lemma AdjustedExactlyWhen(s: State, c: Command)
    requires c.Adjust? && PeriodsOk(s)
    ensures AdjustStep(s, c).reply.Accepted? <==> MayBeAdjusted(s, c)
  {
    var found := FindPeriod(s.periods, c.code);
    if found.Some? {
      var j := Journal(Ref.Posted(c.id), c.book, found.value, c.date, c.lines, c.key, Payload(c.hash), true);
      InsertedExactlyWhen(s, j, Adjusting);
      if MayBeAdjusted(s, c) {
        var p :| 0 <= p < |s.periods| && PeriodAdmits(s, c, p);
        assert p == found.value;
      }
      if AdjustStep(s, c).reply.Accepted? {
        assert PeriodAdmits(s, c, found.value);
      }
    }
  }

  lemma AdjustmentIsInserted(s: State, c: Command)
    requires c.Adjust? && AdjustStep(s, c).reply.Accepted?
    ensures exists j :: IsAdjustment(s, c, j) && OneAdded(s, AdjustStep(s, c).state, j)
  {
    var j := Journal(Ref.Posted(c.id), c.book, FindPeriod(s.periods, c.code).value, c.date, c.lines, c.key,
      Payload(c.hash), true);
    assert IsAdjustment(s, c, j) && OneAdded(s, AdjustStep(s, c).state, j);
  }

  lemma AdjustmentIsSound(s: State, c: Command)
    requires Inv(s) && c.Adjust?
    ensures AdjustsSoundly(s, c, AdjustStep(s, c))
  {
    if AdjustStep(s, c).reply.Accepted? {
      AdjustmentIsInserted(s, c);
    }
    assert Keeps(PeriodsPart, s);
    AdjustKeepsInv(s, c);
    AdjustedExactlyWhen(s, c);
  }

  // --------------------------------------------------------------- reversals

  /** The journal has a receipt, is no reversal itself, and the policy is for its book. */
  predicate Reversible(j: Journal, c: Command)
    requires c.Reverse?
  {
    j.finalized && !j.ref.ReversalOf? && j.date <= c.date && j.book == c.policy.book
  }

  predicate MayBeReversed(s: State, c: Command)
    requires c.Reverse?
  {
    var original := JournalByRef(s.journals, c.original);
    && Unused(s, c.key, ReversalOf(c.original)) && c.policy.start <= c.date <= c.policy.end
    && original.Some? && Reversible(original.value, c)
    && exists p :: 0 <= p < |s.periods| && s.periods[p].start <= c.date <= s.periods[p].end
                && MayWriteSpecial(s, c.policy.book, p)
  }

  /** The journal of an accepted reversal: the mirror image of its original. */
  predicate IsReversal(s: State, c: Command, j: Journal)
    requires c.Reverse?
  {
    var original := JournalByRef(s.journals, c.original);
    && original.Some? && Mirrored(original.value.lines, j.lines)
    && j.ref == ReversalOf(c.original) && j.book == original.value.book && j.date == c.date && j.key == c.key
    && j.evidence == ReversalCommand(c.key, c.original, c.date, c.reason) && j.finalized
    && j.period < |s.periods| && s.periods[j.period].start <= c.date <= s.periods[j.period].end
  }

  /** What the database accepted once it accepts with the sides exchanged. */
  lemma OppositeIsSound(chart: Chart, lines: seq<Line>)
    requires SoundLines(chart, lines)
    ensures SoundLines(chart, Opposite(lines))
  {
    OppositeIsMirrored(lines);
    forall l | l in Opposite(lines) ensures Listed(chart, l.account) && OneSided(l) && l.number > 0 {
      var k :| 0 <= k < |lines| && Opposite(lines)[k] == l;
      assert lines[k] in lines;
    }
    OppositeNet(lines, Every());
  }

  lemma CalendarAdmits(s: State, book: string, p: nat)
    requires CalendarOk(s) && book in s.charts && p < |s.periods| && MayWriteSpecial(s, book, p)
    ensures s.periods[p].status != HardClosed
  {
    assert ShowsLeastClosed(s, p);
  }

  /** The insert of a reversal is refused for its key, its reference or its period only. */
  lemma ReversalInsertedExactlyWhen(s: State, original: Journal, j: Journal)
    requires PeriodsOk(s) && JournalsOk(s) && original in s.journals
    requires j.period < |s.periods| && j.book == original.book && j.lines == Opposite(original.lines)
    ensures InsertRefusal(s, j, Reversal).None? <==>
            Unused(s, j.key, j.ref) && MayWriteSpecial(s, j.book, j.period)
  {
    assert JournalOk(s, original);
    OppositeIsSound(s.charts[j.book], original.lines);
    InsertedExactlyWhen(s, j, Reversal);
  }

  ghost predicate ReversesSoundly(s: State, c: Command, outcome: Outcome)
    requires c.Reverse?
  {
    && (outcome.reply.Accepted? <==> MayBeReversed(s, c))
    && (!outcome.reply.Accepted? ==> outcome.state == s)
    && (outcome.reply.Accepted? ==> exists j :: IsReversal(s, c, j) && OneAdded(s, outcome.state, j))
  }

  /** A reversal is accepted exactly when its key is new, the journal it names is posted,
      not reversed yet, not dated after it and of the policy's book, the policy permits
      its date, and the book may still write special journals into the period of that
      date. It is never refused for its lines. */
  lemma ReversedExactlyWhen(s: State, c: Command)
    requires c.Reverse? && PeriodsOk(s) && CalendarOk(s) && JournalsOk(s)
    ensures ReversesSoundly(s, c, ReverseStep(s, c))
  {
    var original, covering := JournalByRef(s.journals, c.original), CoveringPeriod(s.periods, c.date);
    if original.Some? && covering.Some? && original.value.book == c.policy.book {
      var p := covering.value;
      var j := Journal(ReversalOf(c.original), original.value.book, p, c.date, Opposite(original.value.lines), c.key,
        ReversalCommand(c.key, c.original, c.date, c.reason), true);
      ReversalInsertedExactlyWhen(s, original.value, j);
      OppositeIsMirrored(original.value.lines);
      assert IsReversal(s, c, j) && JournalOk(s, original.value);
      assert ReverseStep(s, c).reply.Accepted? ==> OneAdded(s, ReverseStep(s, c).state, j);
      OnlyCovering(s, c.date, p);
      if MayWriteSpecial(s, j.book, p) {
        CalendarAdmits(s, j.book, p);
      }
    }
  }

  // ---------------------------------------------------------------- openings

  predicate MayBeOpened(s: State, c: Command)
    requires c.OpenPeriod?
  {
    && c.openKey !in s.openings && (forall p :: 0 <= p < |s.periods| ==> s.periods[p].code != c.code)
    && c.start.Some? && c.end.Some? && c.start.value <= c.end.value
  }

  predicate DatesAgree(period: Period, start: Option<Date>, end: Option<Date>) {
    start in {None, Some(period.start)} && end in {None, Some(period.end)}
  }

  predicate RecordOk(ps: seq<Period>, record: OpenRecord) {
    var found := FindPeriod(ps, record.code);
    && found.Some? && DatesAgree(ps[found.value], record.start, record.end)
    && record.start.Some? == record.end.Some?
  }

  /** Every opening on record was for an existing period, and named both of that
      period's dates or none. */
  predicate OpeningsOk(s: State) {
    forall k :: k in s.openings ==> RecordOk(s.periods, s.openings[k])
  }

  /** The period of the command's code, on the dates the command named. */
  predicate IsOpened(s: State, c: Command, p: nat)
    requires c.OpenPeriod?
  {
    && p < |s.periods| && s.periods[p].code == c.code && DatesAgree(s.periods[p], c.start, c.end)
    && c.openKey in s.openings && s.openings[c.openKey] == OpenRecord(c.entity, c.code, c.start, c.end, c.hash)
  }

  predicate OnlyOpened(s: State, t: State, c: Command)
    requires c.OpenPeriod?
  {
    && t == s.(periods := t.periods, openings := t.openings)
    && t.periods ==
       (if MayBeOpened(s, c) then s.periods + [Period(c.code, c.start.value, c.end.value, Open)] else s.periods)
    && (forall k :: k in s.openings ==> k in t.openings && t.openings[k] == s.openings[k])
  }

  /** A period is added exactly when nothing stands against it, at the end and open;
      an answer is the period asked for, on the dates asked for, with the command on
      record; a refusal writes nothing. */
  ghost predicate OpensSoundly(s: State, c: Command, outcome: Outcome)
    requires c.OpenPeriod?
  {
    && (outcome.reply.PeriodOpen? && !outcome.reply.replayed <==> MayBeOpened(s, c))
    && (outcome.reply.PeriodOpen? ==> IsOpened(outcome.state, c, outcome.reply.period))
    && (!outcome.reply.PeriodOpen? ==> outcome.state == s)
    && OnlyOpened(s, outcome.state, c)
    && OpeningsOk(outcome.state)
    && (Inv(s) && Orderly(s, c) ==> Inv(outcome.state))
  }

  /** The same command was recorded for the period it asks for; or it is a new one for an
      open period, naming both of its dates or none. */
  predicate MayBeConfirmed(s: State, c: Command)
    requires c.OpenPeriod?
  {
    exists p :: 0 <= p < |s.periods| && s.periods[p].code == c.code &&
      if c.openKey in s.openings
      then s.openings[c.openKey] == OpenRecord(c.entity, c.code, c.start, c.end, c.hash)
      else
        && s.periods[p].status == Open
        && ((c.start.None? && c.end.None?) ||
            (c.start == Some(s.periods[p].start) && c.end == Some(s.periods[p].end)))
  }

  /** An opening of a period that is there already is answered exactly when it is the
      recorded command or agrees with the open period. */
  lemma ConfirmedExactlyWhen(s: State, c: Command)
    requires c.OpenPeriod? && PeriodsOk(s)
    ensures OpenStep(s, c).reply.PeriodOpen? && OpenStep(s, c).reply.replayed <==> MayBeConfirmed(s, c)
  {
    var found := FindPeriod(s.periods, c.code);
    if found.Some? {
      assert forall p :: 0 <= p < |s.periods| && s.periods[p].code == c.code ==> p == found.value;
    }
  }

  lemma AddedPeriodKeepsFound(ps: seq<Period>, period: Period, code: int)
    ensures FindPeriod(ps + [period], code) == if period.code == code then Some(|ps|) else FindPeriod(ps, code)
  {
    assert (ps + [period])[..|ps|] == ps;
  }

  lemma AddedPeriodKeepsRecords(s: State, period: Period)
    requires OpeningsOk(s) && FindPeriod(s.periods, period.code).None?
    ensures OpeningsOk(s.(periods := s.periods + [period]))
  {
    forall k | k in s.openings ensures RecordOk(s.periods + [period], s.openings[k]) {
      assert RecordOk(s.periods, s.openings[k]);
      AddedPeriodKeepsFound(s.periods, period, s.openings[k].code);
    }
  }

  lemma AddedRecordKeepsRecords(s: State, k: string, record: OpenRecord)
    requires OpeningsOk(s) && RecordOk(s.periods, record)
    ensures OpeningsOk(s.(openings := s.openings[k := record]))
  {
  }

  lemma OpeningKeepsOpenings(s: State, c: Command)
    requires c.OpenPeriod? && OpeningsOk(s)
    ensures OpeningsOk(OpenStep(s, c).state)
  {
    var record := OpenRecord(c.entity, c.code, c.start, c.end, c.hash);
    if MayBeOpened(s, c) {
      var period := Period(c.code, c.start.value, c.end.value, Open);
      AddedPeriodKeepsRecords(s, period);
      AddedPeriodKeepsFound(s.periods, period, c.code);
      AddedRecordKeepsRecords(s.(periods := s.periods + [period]), c.openKey, record);
    } else if OpenStep(s, c).state != s {
      AddedRecordKeepsRecords(s, c.openKey, record);
    }
  }

  lemma OpeningIsAnswered(s: State, c: Command)
    requires c.OpenPeriod? && OpeningsOk(s)
    ensures var outcome := OpenStep(s, c);
            && (outcome.reply.PeriodOpen? && !outcome.reply.replayed <==> MayBeOpened(s, c))
            && (outcome.reply.PeriodOpen? ==> IsOpened(outcome.state, c, outcome.reply.period))
            && (!outcome.reply.PeriodOpen? ==> outcome.state == s)
  {
  }

  lemma OpeningOnlyOpens(s: State, c: Command)
    requires c.OpenPeriod?
    ensures OnlyOpened(s, OpenStep(s, c).state, c)
  {
  }

  lemma OpeningIsSound(s: State, c: Command)
    requires c.OpenPeriod? && OpeningsOk(s)
    ensures OpensSoundly(s, c, OpenStep(s, c))
  {
    OpeningIsAnswered(s, c);
    OpeningOnlyOpens(s, c);
    OpeningKeepsOpenings(s, c);
    if Inv(s) && Orderly(s, c) {
      OpenKeepsInv(s, c);
    }
  }

  // -------------------------------------------------------------- hard closes

  /** Income to clear needs 310100 on the chart in the role of retained earnings, a period
      that the book may write into, and that no journal has the closer's own key and
      reference; without income none of these is asked. */
  ghost predicate MayClearIncome(s: State, book: string, p: nat)
    requires book in s.charts && p < |s.periods|
  {
    var period := s.periods[p];
    IncomeAccountsCleared(s, book, period.end) ||
    (&& HasRole(s.charts[book], {RETAINED_EARNINGS_ROLE})(RETAINED_EARNINGS) && MayWriteSpecial(s, book, p)
     && Unused(s, ClosingKey(period.code, book), Ref.Closing(period.code, book)))
  }

  lemma EarningsMappedExactlyWhen(chart: Chart)
    requires DistinctCodes(chart)
    ensures EarningsMapped(chart) <==> HasRole(chart, {RETAINED_EARNINGS_ROLE})(RETAINED_EARNINGS)
  {
    CodeListed(chart, RETAINED_EARNINGS);
  }

  lemma NothingToClearExactlyWhen(s: State, book: string, p: nat)
    requires book in s.charts && p < |s.periods| && DistinctCodes(s.charts[book])
    ensures ClosingJournalOf(s, book, p).lines == [] <==> IncomeAccountsCleared(s, book, s.periods[p].end)
  {
    ClosesExactlyWhenIncomeStands(s.charts[book], s.journals, Through(book, s.periods[p].end));
  }

  lemma ClosingLinesAreSound(s: State, book: string, p: nat)
    requires SoundLedger(s) && book in s.charts && p < |s.periods| && EarningsMapped(s.charts[book])
    requires ClosingJournalOf(s, book, p).lines != []
    ensures SoundLines(s.charts[book], ClosingJournalOf(s, book, p).lines)
  {
    var chart, lines := s.charts[book], ClosingJournalOf(s, book, p).lines;
    var sel := Through(book, s.periods[p].end);
    ClosingLinesWellFormed(IncomeRows(chart, s.journals, sel));
    ClosingLineAccountsOk(chart, s.journals, sel);
    CodeListed(chart, RETAINED_EARNINGS);
    forall l | l in lines ensures l.number > 0 && Listed(chart, l.account) {
      var i :| 0 <= i < |lines| && lines[i] == l;
    }
  }

  lemma ClosingPostedExactlyWhen(s: State, book: string, p: nat)
    requires SoundLedger(s) && book in s.charts && p < |s.periods|
    ensures !WithClosingJournal(s, book, p).reply.Refused? <==> MayClearIncome(s, book, p)
  {
    var closing := ClosingJournalOf(s, book, p);
    LedgerOf(s);
    EarningsMappedExactlyWhen(s.charts[book]);
    NothingToClearExactlyWhen(s, book, p);
    if closing.lines != [] && EarningsMapped(s.charts[book]) {
      ClosingLinesAreSound(s, book, p);
      InsertedExactlyWhen(s, closing, PeriodClosing);
    }
  }

  lemma LockKeepsLedger(s: State, p: nat)
    requires PeriodsOk(s) && JournalsOk(s) && p < |s.periods|
    ensures SoundLedger(Materialized(s, p))
  {
    var t := Materialized(s, p);
    forall j | j in t.journals ensures JournalOk(t, j) {
      assert JournalOk(s, j);
    }
    assert PeriodsOk(t) && JournalsOk(t);
  }

  lemma LockLeavesIncome(s: State, book: string, p: nat)
    requires book in s.charts && p < |s.periods|
    ensures MayClearIncome(Materialized(s, p), book, p) <==> MayClearIncome(s, book, p)
  {
  }

  lemma LockedCloseExactlyWhen(s: State, p: nat, c: Command)
    requires SoundLedger(s) && c.Close? && c.status == HardClosed && c.book in s.charts && p < |s.periods|
    requires (c.book, p) in s.controls && s.controls[(c.book, p)].status != HardClosed && (c.book, p) !in s.snapshots
    ensures var reply := CloseLocked(s, p, c).reply;
            && (reply.Closed? ==> !reply.replayed)
            && (reply.Closed? <==> c.binderLoads && !SnapshotKeyUsed(s, c.key) && MayClearIncome(s, c.book, p))
  {
    TrialBalanceAlwaysBalances(s, c.book, s.periods[p].end);
    ClosingPostedExactlyWhen(s, c.book, p);
    ClosingOnlyAppends(s, c.book, p);
  }

  /** A book period not yet hard-closed is hard-closed exactly when the worksheets load,
      the key has stored no other close, and what income there is can be cleared: the
      ledger is never found unbalanced and no closing line is ever refused. */
  lemma HardClosedExactlyWhen(s: State, c: Command, p: nat)
    requires PeriodsOk(s) && JournalsOk(s) && SnapshotsClosed(s)
    requires c.Close? && c.status == HardClosed && c.book in s.charts
    requires FindPeriod(s.periods, c.code) == Some(p) && Effective(s, c.book, p) != HardClosed
    ensures var reply := CloseStep(s, c).reply;
            && (reply.Closed? ==> !reply.replayed)
            && (reply.Closed? <==> c.binderLoads && !SnapshotKeyUsed(s, c.key) && MayClearIncome(s, c.book, p))
  {
    LockKeepsLedger(s, p);
    LockLeavesIncome(s, c.book, p);
    LockedCloseExactlyWhen(Materialized(s, p), p, c);
  }

  lemma PersistAddsClosing(s: State, book: string, p: nat, key: Key)
    requires PeriodsOk(s) && book in s.charts && p < |s.periods| && (book, p) in s.controls
    requires PersistClose(s, book, p, key).reply.Closed?
    ensures PersistClose(s, book, p, key).state.journals != s.journals <==>
            !IncomeAccountsCleared(s, book, s.periods[p].end)
  {
    NothingToClearExactlyWhen(s, book, p);
    assert |s.journals + [ClosingJournalOf(s, book, p)]| != |s.journals|;
  }

  lemma LockLeavesCleared(s: State, book: string, p: nat)
    requires PeriodsOk(s) && book in s.charts && p < |s.periods|
    ensures PeriodsOk(Materialized(s, p))
    ensures IncomeAccountsCleared(Materialized(s, p), book, s.periods[p].end) <==>
            IncomeAccountsCleared(s, book, s.periods[p].end)
  {
  }

  /** A first hard close adds a closing journal exactly when some income account of the book
      has a balance at the end of the period. */
  lemma ClosingIsAddedExactlyWhen(s: State, c: Command, p: nat)
    requires PeriodsOk(s) && c.Close? && c.status == HardClosed && FindPeriod(s.periods, c.code) == Some(p)
    requires CloseStep(s, c).reply.Closed? && !CloseStep(s, c).reply.replayed
    ensures c.book in s.charts
    ensures CloseStep(s, c).state.journals != s.journals <==> !IncomeAccountsCleared(s, c.book, s.periods[p].end)
  {
    var locked := Materialized(s, p);
    CloseLockedCases(locked, p, c);
    LockLeavesCleared(s, c.book, p);
    PersistAddsClosing(locked, c.book, p, c.key);
  }

  lemma LockLeavesSoftKeys(s: State, p: nat, key: Key)
    requires p < |s.periods|
    ensures SoftKeyUsed(Materialized(s, p), key) <==> SoftKeyUsed(s, key)
  {
    var t := Materialized(s, p);
    if SoftKeyUsed(s, key) {
      var k :| k in s.controls && s.controls[k].evidence.Some? && s.controls[k].evidence.value.key == key;
      assert k in t.controls && t.controls[k] == s.controls[k];
    }
  }

  /** An open book period is soft-closed exactly when no other soft close has the key. */
  lemma SoftClosedExactlyWhen(s: State, c: Command, p: nat)
    requires c.Close? && c.status == SoftClosed && c.book in s.charts
    requires FindPeriod(s.periods, c.code) == Some(p) && Effective(s, c.book, p) == Open
    ensures var outcome := CloseStep(s, c);
            && (outcome.reply.Closed? ==> !outcome.reply.replayed)
            && (outcome.reply.Closed? <==> !SoftKeyUsed(s, c.key))
            && outcome.state.journals == s.journals && outcome.state.snapshots == s.snapshots
  {
    LockLeavesSoftKeys(s, p, c.key);
  }

  // ------------------------------------------------------- what a close counts

  /** The journals after a close: those before, and at most one closing journal of the
      book, dated by the end of the period. */
  predicate OnlyClosing(s: State, t: State, c: Command, p: nat)
    requires c.Close? && p < |s.periods|
  {
    t.journals == s.journals ||
    (&& c.status == HardClosed && |t.journals| == |s.journals| + 1 && t.journals[..|s.journals|] == s.journals
     && var j := t.journals[|s.journals|];
        j.ref == Ref.Closing(c.code, c.book) && j.book == c.book && j.period == p && j.date == s.periods[p].end)
  }

  /** A first close answers, and stores with its key, the number of journals of the book
      dated by the end of the period, its own closing journal included. */
  predicate CountsItsJournals(s: State, c: Command, p: nat, outcome: Outcome)
    requires c.Close? && p < |s.periods| && outcome.reply.Closed?
  {
    var t, count, k := outcome.state, outcome.reply.count, (c.book, p);
    && outcome.reply.status == c.status
    && OnlyClosing(s, t, c, p)
    && count == |DatedBy(s.journals, c.book, s.periods[p].end)| + (|t.journals| - |s.journals|)
    && k in t.controls && t.controls[k].status == c.status
    && (c.status == SoftClosed ==> t.controls[k].evidence == Some(SoftEvidence(c.key, count)))
    && (c.status == HardClosed ==>
          k in t.snapshots && t.snapshots[k].key == c.key && t.snapshots[k].count == count)
  }

  lemma SoftCloseCounts(s: State, p: nat, c: Command)
    requires c.Close? && c.status == SoftClosed && p < |s.periods|
    requires PersistSoftClose(s, c.book, p, c.key).reply.Closed?
    ensures CountsItsJournals(s, c, p, PersistSoftClose(s, c.book, p, c.key))
  {
    CountIsSize(s.journals, c.book, s.periods[p].end);
  }

  lemma ClosingIsCounted(s: State, p: nat, c: Command)
    requires c.Close? && c.status == HardClosed && c.book in s.charts && p < |s.periods|
    requires s.periods[p].code == c.code && !WithClosingJournal(s, c.book, p).reply.Refused?
    ensures var t, end := WithClosingJournal(s, c.book, p).state, s.periods[p].end;
            && OnlyClosing(s, t, c, p)
            && JournalCount(t.journals, Through(c.book, end)) ==
               |DatedBy(s.journals, c.book, end)| + (|t.journals| - |s.journals|)
  {
    var t, end := WithClosingJournal(s, c.book, p).state, s.periods[p].end;
    CountIsSize(s.journals, c.book, end);
    if t.journals != s.journals {
      assert t.journals[..|t.journals| - 1] == s.journals;
    }
  }

  lemma HardCloseCounts(s: State, p: nat, c: Command)
    requires c.Close? && c.status == HardClosed && c.book in s.charts && p < |s.periods| && (c.book, p) in s.controls
    requires s.periods[p].code == c.code && PersistClose(s, c.book, p, c.key).reply.Closed?
    ensures CountsItsJournals(s, c, p, PersistClose(s, c.book, p, c.key))
  {
    ClosingIsCounted(s, p, c);
    ClosingOnlyAppends(s, c.book, p);
  }

  /** A first close counts its journals; a replay writes control rows only, and a refusal
      nothing. */
  predicate ClosesSoundly(s: State, c: Command, outcome: Outcome)
    requires c.Close?
  {
    var found := FindPeriod(s.periods, c.code);
    if outcome.reply.Closed? && !outcome.reply.replayed
    then found.Some? && CountsItsJournals(s, c, found.value, outcome)
    else if outcome.reply.Closed? then found.Some? && outcome.state == Materialized(s, found.value)
    else outcome.reply.Refused? && outcome.state == s
  }

  lemma LockedCloseCounts(s: State, p: nat, c: Command)
    requires c.Close? && c.status != Open && c.book in s.charts && p < |s.periods| && (c.book, p) in s.controls
    requires s.periods[p].code == c.code
    ensures var outcome := CloseLocked(s, p, c);
            if outcome.reply.Closed? && !outcome.reply.replayed then CountsItsJournals(s, c, p, outcome)
            else outcome.state == s && (outcome.reply.Closed? || outcome.reply.Refused?)
  {
    var outcome := CloseLocked(s, p, c);
    CloseLockedCases(s, p, c);
    if outcome.reply.Closed? && !outcome.reply.replayed {
      if c.status == SoftClosed {
        SoftCloseCounts(s, p, c);
      } else {
        HardCloseCounts(s, p, c);
      }
    }
  }

  /** For every close, soft or hard, in every store. */
  lemma CloseCountsItsJournals(s: State, c: Command)
    requires c.Close?
    ensures ClosesSoundly(s, c, CloseStep(s, c))
  {
    var found := FindPeriod(s.periods, c.code);
    if c.status != Open && c.book in s.charts && found.Some? {
      LockedCloseCounts(Materialized(s, found.value), found.value, c);
    }
  }
}
