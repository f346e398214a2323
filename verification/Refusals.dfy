/** What a refused command is told is so: every reason is read back from the tables and the
    command, and not from the order in which the code asks. */
module Refusals {
  import opened Sums
  import opened JournalTables
  import opened ClosingJournal
  import opened BookStore
  import opened CloseInvariant
  import opened AcceptedCommands
  import opened SnapshotTheorems
  import opened PeriodControl

  // ------------------------------------------------------- what the reasons say

  predicate Taken(s: State, key: Key, ref: Ref) {
    exists j :: j in s.journals && (j.key == key || j.ref == ref)
  }

  predicate SameKeyOtherEvidence(s: State, key: Key, evidence: Evidence) {
    exists j :: j in s.journals && j.key == key && j.evidence != evidence
  }

  predicate NoPeriodHolds(s: State, date: Date) {
    forall p :: 0 <= p < |s.periods| ==> !(s.periods[p].start <= date <= s.periods[p].end)
  }

  predicate NoPeriodCalled(s: State, code: int) {
    forall p :: 0 <= p < |s.periods| ==> s.periods[p].code != code
  }

  /** What the table refuses about the lines of a journal. */
  predicate SaysOfLines(chart: Chart, lines: seq<Line>, why: Refusal) {
    match why
    case AccountMissing => exists l :: l in lines && !Listed(chart, l.account)
    case BadLine => !AllOneSided(lines) || !DistinctNumbers(lines)
    case Unbalanced => lines == [] || !Balanced(lines)
    case _ => false
  }

  predicate SaysOfPost(s: State, c: Command, why: Refusal)
    requires c.Post?
  {
    match why
    case KeyConflict => SameKeyOtherEvidence(s, c.key, Payload(c.hash))
    case ReservedRole => exists l :: l in c.proposed && l.role == RETAINED_EARNINGS_ROLE
    case OutsidePolicy => !(c.policy.start <= c.date <= c.policy.end)
    case RoleNotMapped => exists l :: l in c.proposed && l.role !in c.policy.mapping
    case UnknownBook => c.policy.book !in s.charts
    case NoSuchPeriod => NoPeriodHolds(s, c.date)
    case PeriodLocked =>
      exists p :: 0 <= p < |s.periods| && s.periods[p].start <= c.date <= s.periods[p].end
               && Effective(s, c.policy.book, p) != Open
    case DuplicateIdentity => Taken(s, c.key, Ref.Posted(c.id))
    case _ =>
      && c.policy.book in s.charts && AllMapped(c.proposed, c.policy.mapping)
      && SaysOfLines(s.charts[c.policy.book], Resolved(c.proposed, c.policy.mapping), why)
  }

  predicate SaysOfAdjustment(s: State, c: Command, why: Refusal)
    requires c.Adjust?
  {
    match why
    case KeyConflict => SameKeyOtherEvidence(s, c.key, Payload(c.hash))
    case UnknownBook => c.book !in s.charts
    case NoSuchPeriod => NoPeriodCalled(s, c.code)
    case OutsidePeriod =>
      exists p :: 0 <= p < |s.periods| && s.periods[p].code == c.code
               && !(s.periods[p].start <= c.date <= s.periods[p].end)
    case PeriodLocked =>
      exists p :: 0 <= p < |s.periods| && s.periods[p].code == c.code && !MayWriteSpecial(s, c.book, p)
    case RoleNotMapped => c.book in s.charts && !SomeRoleMapped(s.charts[c.book])
    case DuplicateIdentity => Taken(s, c.key, Ref.Posted(c.id))
    case _ => c.book in s.charts && SaysOfLines(s.charts[c.book], c.lines, why)
  }

  predicate SaysOfReversal(s: State, c: Command, why: Refusal)
    requires c.Reverse?
  {
    var original := JournalByRef(s.journals, c.original);
    match why
    case AlreadyReversed => exists j :: j in s.journals && j.ref == ReversalOf(c.original) && j.key != c.key
    case KeyConflict =>
      exists j :: j in s.journals && j.key == c.key &&
        (j.ref != ReversalOf(c.original) || j.evidence != ReversalCommand(c.key, c.original, c.date, c.reason))
    case NoSuchJournal => forall j :: j in s.journals ==> j.ref != c.original
    case NotReversible => c.original.ReversalOf?
    case BeforeOriginal => original.Some? && c.date < original.value.date
    case OutsidePolicy => !(c.policy.start <= c.date <= c.policy.end)
    case WrongScope => original.Some? && original.value.book != c.policy.book
    case NoSuchPeriod => NoPeriodHolds(s, c.date)
    case PeriodLocked =>
      exists p :: 0 <= p < |s.periods| && s.periods[p].start <= c.date <= s.periods[p].end
               && !MayWriteSpecial(s, c.policy.book, p)
    case NotFinalized => original.Some? && !original.value.finalized
    case _ => false
  }

  predicate SaysOfOpening(s: State, c: Command, why: Refusal)
    requires c.OpenPeriod?
  {
    match why
    case KeyConflict =>
      c.openKey in s.openings &&
      (s.openings[c.openKey] != OpenRecord(c.entity, c.code, c.start, c.end, c.hash) || NoPeriodCalled(s, c.code))
    case CannotReopen => exists p :: 0 <= p < |s.periods| && s.periods[p].code == c.code && s.periods[p].status != Open
    case DatesDiffer =>
      exists p :: 0 <= p < |s.periods| && s.periods[p].code == c.code
               && !DatesAgree(s.periods[p], c.start, c.end)
    case OneDateOnly => c.start.Some? != c.end.Some? && !NoPeriodCalled(s, c.code)
    case DatesRequired => NoPeriodCalled(s, c.code) && (c.start.None? || c.end.None?)
    case DatesReversed => c.start.Some? && c.end.Some? && c.end.value < c.start.value
    case _ => false
  }

  /** The key of the soft close on record for the book period. */
  function SoftKey(s: State, book: string, p: nat): Option<Key> {
    if (book, p) in s.controls && s.controls[(book, p)].evidence.Some?
    then Some(s.controls[(book, p)].evidence.value.key) else None
  }

  /** Another close has the key. */
  predicate KeyOfAnotherClose(s: State, c: Command)
    requires c.Close?
  {
    if c.status == SoftClosed
    then exists k :: k in s.controls && s.controls[k].evidence.Some? && s.controls[k].evidence.value.key == c.key
    else exists k :: k in s.snapshots && s.snapshots[k].key == c.key
  }

  /** `p` is the period of the command's code. */
  ghost predicate SaysOfClose(s: State, c: Command, p: nat, why: Refusal)
    requires c.Close? && c.book in s.charts && p < |s.periods|
  {
    var status, stored := Effective(s, c.book, p), (c.book, p) in s.snapshots;
    match why
    case HardCloseIsFinal => status == HardClosed && c.status == SoftClosed
    case SnapshotMissing => status == HardClosed && !stored
    case EvidenceMissing => status == SoftClosed && SoftKey(s, c.book, p).None?
    case KeyConflict => status == SoftClosed && SoftKey(s, c.book, p) !in {None, Some(c.key)}
    case CloseKeyUsed => status != HardClosed && KeyOfAnotherClose(s, c)
    case BinderUnavailable => c.status == HardClosed && !c.binderLoads
    case EarningsNotMapped =>
      && !IncomeAccountsCleared(s, c.book, s.periods[p].end)
      && !HasRole(s.charts[c.book], {RETAINED_EARNINGS_ROLE})(RETAINED_EARNINGS)
    case PeriodLocked =>
      if status == HardClosed then stored && s.snapshots[(c.book, p)].key != c.key
      else !IncomeAccountsCleared(s, c.book, s.periods[p].end) && !MayWriteSpecial(s, c.book, p)
    case DuplicateIdentity =>
      && !IncomeAccountsCleared(s, c.book, s.periods[p].end)
      && Taken(s, ClosingKey(c.code, c.book), Ref.Closing(c.code, c.book))
    case _ => false
  }

  ghost predicate Says(s: State, c: Command, why: Refusal) {
    match c
    case Post(_, _, _, _, _, _) => SaysOfPost(s, c, why)
    case Adjust(_, _, _, _, _, _, _) => SaysOfAdjustment(s, c, why)
    case Reverse(_, _, _, _, _) => SaysOfReversal(s, c, why)
    case OpenPeriod(_, _, _, _, _, _) => SaysOfOpening(s, c, why)
    case Close(_, _, _, _, _) =>
      (match why
       case BadStatus => c.status == Open
       case UnknownBook => c.book !in s.charts
       case NoSuchPeriod => NoPeriodCalled(s, c.code)
       case _ =>
         c.book in s.charts &&
         exists p :: 0 <= p < |s.periods| && s.periods[p].code == c.code && SaysOfClose(s, c, p, why))
    case RegisterBook(_, _) => why == DuplicateIdentity && c.book in s.charts
  }

  // -------------------------------------------------------------- they are so

  lemma {:induction false} LineRefusalIsTrue(chart: Chart, lines: seq<Line>)
    requires LineRefusal(chart, lines).Some?
    ensures LineRefusal(chart, lines).value in {AccountMissing, BadLine}
    ensures SaysOfLines(chart, lines, LineRefusal(chart, lines).value)
  {
    var earlier, last := lines[..|lines| - 1], lines[|lines| - 1];
    assert last in lines && forall l :: l in earlier ==> l in lines;
    if LineRefusal(chart, earlier).Some? {
      LineRefusalIsTrue(chart, earlier);
    }
  }

  /** Why a journal is not inserted. */
  lemma InsertRefusalIsTrue(s: State, j: Journal, role: WriteRole)
    requires j.period < |s.periods| && InsertRefusal(s, j, role).Some?
    ensures match InsertRefusal(s, j, role).value
            case DuplicateIdentity => Taken(s, j.key, j.ref)
            case UnknownBook => j.book !in s.charts
            case PeriodLocked =>
              if role == Ordinary then Effective(s, j.book, j.period) != Open else !MayWriteSpecial(s, j.book, j.period)
            case why => j.book in s.charts && SaysOfLines(s.charts[j.book], j.lines, why)
  {
    if j.book in s.charts && LineRefusal(s.charts[j.book], j.lines).Some? {
      LineRefusalIsTrue(s.charts[j.book], j.lines);
    }
  }

  lemma PostRefusalIsTrue(s: State, c: Command)
    requires c.Post? && PostStep(s, c).reply.Refused?
    ensures SaysOfPost(s, c, PostStep(s, c).reply.why)
  {
    var covering := CoveringPeriod(s.periods, c.date);
    if covering.Some? && AllMapped(c.proposed, c.policy.mapping) {
      var j := Journal(Ref.Posted(c.id), c.policy.book, covering.value, c.date,
        Resolved(c.proposed, c.policy.mapping), c.key, Payload(c.hash), true);
      if InsertRefusal(s, j, Ordinary).Some? {
        InsertRefusalIsTrue(s, j, Ordinary);
      }
    }
  }

  lemma AdjustmentRefusalIsTrue(s: State, c: Command)
    requires c.Adjust? && AdjustStep(s, c).reply.Refused?
    ensures SaysOfAdjustment(s, c, AdjustStep(s, c).reply.why)
  {
    var found := FindPeriod(s.periods, c.code);
    if found.Some? {
      var j := Journal(Ref.Posted(c.id), c.book, found.value, c.date, c.lines, c.key, Payload(c.hash), true);
      if InsertRefusal(s, j, Adjusting).Some? {
        InsertRefusalIsTrue(s, j, Adjusting);
      }
    }
  }

  /** Only the period guard refuses the mirror image of a posted journal. */
  lemma OnlyTheGuardRefuses(s: State, original: Journal, j: Journal)
    requires PeriodsOk(s) && JournalsOk(s) && original in s.journals
    requires j.period < |s.periods| && j.book == original.book && j.lines == Opposite(original.lines)
    requires JournalByKey(s.journals, j.key).None? && JournalByRef(s.journals, j.ref).None?
    requires InsertRefusal(s, j, Reversal).Some?
    ensures InsertRefusal(s, j, Reversal) == Some(PeriodLocked) && !MayWriteSpecial(s, j.book, j.period)
  {
    assert JournalOk(s, original);
    ReversalInsertedExactlyWhen(s, original, j);
    InsertRefusalIsTrue(s, j, Reversal);
    OppositeIsSound(s.charts[j.book], original.lines);
  }

  /** The command names a journal that it may reverse, as far as the journals tell. */
  predicate NamesReversible(s: State, c: Command, original: Journal, p: nat)
    requires c.Reverse?
  {
    && JournalByRef(s.journals, ReversalOf(c.original)).None? && JournalByKey(s.journals, c.key).None?
    && JournalByRef(s.journals, c.original) == Some(original) && !original.ref.ReversalOf?
    && original.date <= c.date && Permits(c.policy, c.date) && original.book == c.policy.book
    && CoveringPeriod(s.periods, c.date) == Some(p)
  }

  lemma LateReversalRefusalIsTrue(s: State, c: Command, original: Journal, p: nat)
    requires c.Reverse? && PeriodsOk(s) && JournalsOk(s) && CalendarOk(s) && NamesReversible(s, c, original, p)
    requires ReverseStep(s, c).reply.Refused?
    ensures SaysOfReversal(s, c, ReverseStep(s, c).reply.why)
  {
    var j := Journal(ReversalOf(c.original), original.book, p, c.date, Opposite(original.lines), c.key,
      ReversalCommand(c.key, c.original, c.date, c.reason), true);
    assert JournalOk(s, original);
    if MayWriteSpecial(s, j.book, p) {
      CalendarAdmits(s, j.book, p);
    }
    if InsertRefusal(s, j, Reversal).Some? {
      OnlyTheGuardRefuses(s, original, j);
    }
  }

  lemma EarlyReversalRefusalIsTrue(s: State, c: Command)
    requires c.Reverse? && ReverseStep(s, c).reply.Refused?
    ensures SaysOfReversal(s, c, ReverseStep(s, c).reply.why) ||
            exists original, p :: NamesReversible(s, c, original, p)
  {
    var original, covering := JournalByRef(s.journals, c.original), CoveringPeriod(s.periods, c.date);
    if original.Some? && covering.Some? {
      assert NamesReversible(s, c, original.value, covering.value) ||
             SaysOfReversal(s, c, ReverseStep(s, c).reply.why);
    }
  }

  lemma ReversalRefusalIsTrue(s: State, c: Command)
    requires c.Reverse? && PeriodsOk(s) && JournalsOk(s) && CalendarOk(s) && ReverseStep(s, c).reply.Refused?
    ensures SaysOfReversal(s, c, ReverseStep(s, c).reply.why)
  {
    EarlyReversalRefusalIsTrue(s, c);
    if original, p :| NamesReversible(s, c, original, p) {
      LateReversalRefusalIsTrue(s, c, original, p);
    }
  }

  lemma OpeningRefusalIsTrue(s: State, c: Command)
    requires c.OpenPeriod? && OpenStep(s, c).reply.Refused?
    ensures SaysOfOpening(s, c, OpenStep(s, c).reply.why)
  {
  }

  lemma ClearingRefusalIsTrue(s: State, c: Command, p: nat)
    requires c.Close? && SoundLedger(s) && c.book in s.charts && p < |s.periods| && s.periods[p].code == c.code
    requires WithClosingJournal(s, c.book, p).reply.Refused? && Effective(s, c.book, p) != HardClosed
    ensures SaysOfClose(s, c, p, WithClosingJournal(s, c.book, p).reply.why)
  {
    LedgerOf(s);
    var closing := ClosingJournalOf(s, c.book, p);
    EarningsMappedExactlyWhen(s.charts[c.book]);
    NothingToClearExactlyWhen(s, c.book, p);
    if EarningsMapped(s.charts[c.book]) {
      ClosingLinesAreSound(s, c.book, p);
      InsertedExactlyWhen(s, closing, PeriodClosing);
      InsertRefusalIsTrue(s, closing, PeriodClosing);
      NoLineIsRefusedExactlyWhen(s.charts[c.book], closing.lines);
    }
  }

  lemma PersistRefusalIsTrue(s: State, p: nat, c: Command)
    requires c.Close? && c.status == HardClosed && SoundLedger(s) && c.book in s.charts && p < |s.periods|
    requires (c.book, p) in s.controls && s.periods[p].code == c.code
    requires Effective(s, c.book, p) != HardClosed && (c.book, p) !in s.snapshots
    requires PersistClose(s, c.book, p, c.key).reply.Refused?
    ensures SaysOfClose(s, c, p, PersistClose(s, c.book, p, c.key).reply.why)
  {
    ClosingOnlyAppends(s, c.book, p);
    if WithClosingJournal(s, c.book, p).reply.Refused? {
      ClearingRefusalIsTrue(s, c, p);
    }
  }

  lemma LockedRefusalIsTrue(s: State, p: nat, c: Command)
    requires c.Close? && c.status != Open && SoundLedger(s) && c.book in s.charts && p < |s.periods|
    requires (c.book, p) in s.controls && s.periods[p].code == c.code
    requires Effective(s, c.book, p) != HardClosed ==> (c.book, p) !in s.snapshots
    requires CloseLocked(s, p, c).reply.Refused?
    ensures SaysOfClose(s, c, p, CloseLocked(s, p, c).reply.why)
  {
    TrialBalanceAlwaysBalances(s, c.book, s.periods[p].end);
    if c.status == HardClosed && Effective(s, c.book, p) != HardClosed {
      if PersistClose(s, c.book, p, c.key).reply.Refused? {
        PersistRefusalIsTrue(s, p, c);
      }
    }
  }

  lemma LockLeavesReasons(s: State, c: Command, p: nat, why: Refusal)
    requires c.Close? && c.book in s.charts && p < |s.periods| && SaysOfClose(Materialized(s, p), c, p, why)
    ensures SaysOfClose(s, c, p, why)
  {
    var t := Materialized(s, p);
    MaterializedEffective(s, p);
    LockLeavesSoftKeys(s, p, c.key);
    assert SoftKey(t, c.book, p) == SoftKey(s, c.book, p);
  }

  lemma CloseRefusalIsTrue(s: State, c: Command)
    requires c.Close? && PeriodsOk(s) && JournalsOk(s) && SnapshotsClosed(s) && CloseStep(s, c).reply.Refused?
    ensures Says(s, c, CloseStep(s, c).reply.why)
  {
    var found := FindPeriod(s.periods, c.code);
    if c.status != Open && c.book in s.charts && found.Some? {
      var p := found.value;
      LockKeepsLedger(s, p);
      MaterializedEffective(s, p);
      LockedRefusalIsTrue(Materialized(s, p), p, c);
      LockLeavesReasons(s, c, p, CloseStep(s, c).reply.why);
    }
  }

  lemma RefusalWritesNothing(s: State, c: Command)
    requires Step(s, c).reply.Refused?
    ensures Step(s, c).state == s
  {
    if c.Close? {
      CloseCountsItsJournals(s, c);
    }
  }

  /** In every store that tidy commands reach, what a refused command is told is so; and
      in any store it leaves everything as it was. */
  lemma RefusalsAreTrue(s: State, c: Command)
    requires PeriodsOk(s) && JournalsOk(s) && CalendarOk(s) && SnapshotsClosed(s)
    requires Step(s, c).reply.Refused?
    ensures Says(s, c, Step(s, c).reply.why) && Step(s, c).state == s
  {
    RefusalWritesNothing(s, c);
    match c
    case Post(_, _, _, _, _, _) => PostRefusalIsTrue(s, c);
    case Adjust(_, _, _, _, _, _, _) => AdjustmentRefusalIsTrue(s, c);
    case Reverse(_, _, _, _, _) => ReversalRefusalIsTrue(s, c);
    case OpenPeriod(_, _, _, _, _, _) => OpeningRefusalIsTrue(s, c);
    case Close(_, _, _, _, _) => CloseRefusalIsTrue(s, c);
    case RegisterBook(_, _) =>
  }
}
