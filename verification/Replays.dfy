/** Exact replays over whole runs: what a command once answered, it answers again
    from stored facts whatever happened since, in order or not. */
module Replays {
  import opened Sums
  import opened JournalTables
  import opened BookStore
  import opened CloseInvariant
  import opened AcceptedCommands
  import opened PeriodControl
  import opened SnapshotTheorems

  // ---------------------------------------------------------------- journals

  /** No journal, or one more under a new key and a new reference. */
  predicate OneMoreJournal(js: seq<Journal>, ks: seq<Journal>) {
    || ks == js
    || (ks != [] && ks[..|ks| - 1] == js
        && JournalByKey(js, ks[|ks| - 1].key).None? && JournalByRef(js, ks[|ks| - 1].ref).None?)
  }

  lemma InsertIsOneMore(s: State, j: Journal, role: WriteRole)
    requires j.period < |s.periods|
    ensures OneMoreJournal(s.journals, InsertOutcome(s, j, role).state.journals)
  {
    assert (s.journals + [j])[..|s.journals|] == s.journals;
  }

  lemma ClosingIsOneMore(s: State, book: string, p: nat)
    requires book in s.charts && p < |s.periods|
    ensures OneMoreJournal(s.journals, WithClosingJournal(s, book, p).state.journals)
  {
    InsertIsOneMore(s, ClosingJournalOf(s, book, p), PeriodClosing);
  }

  lemma CloseJournals(s: State, p: nat, c: Command)
    requires c.Close? && c.status != Open && c.book in s.charts && p < |s.periods| && (c.book, p) in s.controls
    ensures var js := CloseLocked(s, p, c).state.journals;
            js == s.journals || js == WithClosingJournal(s, c.book, p).state.journals
  {
    CloseLockedCases(s, p, c);
    PersistCloseCases(s, c.book, p, c.key);
  }

  lemma CloseIsOneMore(s: State, c: Command)
    requires c.Close?
    ensures OneMoreJournal(s.journals, CloseStep(s, c).state.journals)
  {
    var found := FindPeriod(s.periods, c.code);
    if c.status != Open && c.book in s.charts && found.Some? {
      var locked := Materialized(s, found.value);
      CloseLockedCases(locked, found.value, c);
      ClosingIsOneMore(locked, c.book, found.value);
      PersistCloseCases(locked, c.book, found.value, c.key);
      CloseJournals(locked, found.value, c);
    }
  }

  lemma PostIsOneMore(s: State, c: Command)
    requires c.Post?
    ensures OneMoreJournal(s.journals, PostStep(s, c).state.journals)
  {
    var t := PostStep(s, c).state;
    if t.journals != s.journals {
      assert t.journals[..|t.journals| - 1] == s.journals;
    }
  }

  lemma AdjustIsOneMore(s: State, c: Command)
    requires c.Adjust?
    ensures OneMoreJournal(s.journals, AdjustStep(s, c).state.journals)
  {
    var t := AdjustStep(s, c).state;
    if t.journals != s.journals {
      assert t.journals[..|t.journals| - 1] == s.journals;
    }
  }

  lemma ReverseIsOneMore(s: State, c: Command)
    requires c.Reverse?
    ensures OneMoreJournal(s.journals, ReverseStep(s, c).state.journals)
  {
    var t := ReverseStep(s, c).state;
    if t.journals != s.journals {
      assert t.journals[..|t.journals| - 1] == s.journals;
    }
  }

  lemma StepIsOneMore(s: State, c: Command)
    ensures OneMoreJournal(s.journals, Step(s, c).state.journals)
  {
    if c.Close? {
      CloseIsOneMore(s, c);
    } else if c.Reverse? {
      ReverseIsOneMore(s, c);
    } else if c.Post? {
      PostIsOneMore(s, c);
    } else if c.Adjust? {
      AdjustIsOneMore(s, c);
    } else {
      assert Step(s, c).state.journals == s.journals;
    }
  }

  lemma OneMoreKeepsLookups(js: seq<Journal>, ks: seq<Journal>, key: Key, ref: Ref)
    requires OneMoreJournal(js, ks)
    ensures JournalByKey(js, key).Some? ==> JournalByKey(ks, key) == JournalByKey(js, key)
    ensures JournalByRef(js, ref).Some? ==> JournalByRef(ks, ref) == JournalByRef(js, ref)
  {
  }

  /** A journal found by its key or its reference is found again after any run. */
  lemma {:induction false} RunKeepsLookups(s: State, commands: seq<Command>, key: Key, ref: Ref)
    ensures var t := Run(s, commands);
            && (JournalByKey(s.journals, key).Some? ==>
                  JournalByKey(t.journals, key) == JournalByKey(s.journals, key))
            && (JournalByRef(s.journals, ref).Some? ==>
                  JournalByRef(t.journals, ref) == JournalByRef(s.journals, ref))
  {
    if commands != [] {
      var before, c := Run(s, commands[..|commands| - 1]), commands[|commands| - 1];
      RunKeepsLookups(s, commands[..|commands| - 1], key, ref);
      StepIsOneMore(before, c);
      OneMoreKeepsLookups(before.journals, Step(before, c).state.journals, key, ref);
    }
  }

  predicate Answered(reply: Reply) {
    reply.Accepted? || reply.Replayed?
  }

  /** What an answered post or adjustment leaves behind. */
  predicate StoredAs(js: seq<Journal>, key: Key, evidence: Evidence, ref: Ref) {
    var found := JournalByKey(js, key);
    found.Some? && found.value.evidence == evidence && found.value.ref == ref
  }

  lemma PostIsStored(s: State, c: Command)
    requires c.Post? && Answered(PostStep(s, c).reply)
    ensures StoredAs(PostStep(s, c).state.journals, c.key, Payload(c.hash), PostStep(s, c).reply.ref)
  {
  }

  lemma AdjustmentIsStored(s: State, c: Command)
    requires c.Adjust? && Answered(AdjustStep(s, c).reply)
    ensures StoredAs(AdjustStep(s, c).state.journals, c.key, Payload(c.hash), AdjustStep(s, c).reply.ref)
  {
  }

  /** Once a post or an adjustment has been answered, then after any commands its
      key answers with the same journal for the same payload and conflicts for
      every other, and nothing is written. */
  lemma PostReplaysForever(s: State, c: Command, later: seq<Command>, again: Command)
    requires (c.Post? && again.Post?) || (c.Adjust? && again.Adjust?)
    requires Answered(Step(s, c).reply)
    requires again.key == c.key
    ensures var t := Run(Step(s, c).state, later);
            Step(t, again) ==
            Outcome(t, if again.hash == c.hash then Replayed(Step(s, c).reply.ref) else Refused(KeyConflict))
  {
    if c.Post? {
      PostIsStored(s, c);
    } else {
      AdjustmentIsStored(s, c);
    }
    RunKeepsLookups(Step(s, c).state, later, c.key, Step(s, c).reply.ref);
  }

  lemma ReversalIsAppended(s: State, c: Command)
    requires c.Reverse? && ReverseStep(s, c).reply.Accepted?
    ensures var js := ReverseStep(s, c).state.journals;
            && js != [] && ReverseStep(s, c).reply.ref == ReversalOf(c.original)
            && js[|js| - 1].ref == ReversalOf(c.original) && js[|js| - 1].key == c.key
            && js[|js| - 1].evidence == ReversalCommand(c.key, c.original, c.date, c.reason)
  {
  }

  lemma ReversedIsStored(s: State, c: Command)
    requires c.Reverse? && Answered(ReverseStep(s, c).reply)
    ensures var found := JournalByRef(ReverseStep(s, c).state.journals, ReversalOf(c.original));
            && found.Some? && found.value.key == c.key
            && found.value.evidence == ReversalCommand(c.key, c.original, c.date, c.reason)
  {
    if ReverseStep(s, c).reply.Accepted? {
      ReversalIsAppended(s, c);
    }
  }

  /** Once a journal has been reversed, then after any commands the same reversal
      is replayed, the key conflicts with other evidence, and any other key finds
      the journal already reversed. */
  lemma ReversalReplaysForever(s: State, c: Command, later: seq<Command>, again: Command)
    requires c.Reverse? && again.Reverse? && again.original == c.original
    requires Answered(ReverseStep(s, c).reply)
    ensures var t := Run(ReverseStep(s, c).state, later);
            ReverseStep(t, again) ==
            Outcome(t,
              if again.key != c.key then Refused(AlreadyReversed)
              else if again.date != c.date || again.reason != c.reason then Refused(KeyConflict)
              else Replayed(ReversalOf(c.original)))
  {
    ReversedIsStored(s, c);
    RunKeepsLookups(ReverseStep(s, c).state, later, c.key, ReversalOf(c.original));
  }

  // ------------------------------------------------------------------ closes

  lemma {:induction false} SameCodesSameLookup(ps: seq<Period>, qs: seq<Period>, code: int)
    requires |ps| == |qs| && forall p :: 0 <= p < |ps| ==> qs[p].code == ps[p].code
    ensures FindPeriod(qs, code) == FindPeriod(ps, code)
  {
    if ps != [] {
      SameCodesSameLookup(ps[..|ps| - 1], qs[..|qs| - 1], code);
    }
  }

  lemma CloseKeepsFound(s: State, c: Command, code: int)
    requires c.Close?
    ensures FindPeriod(CloseStep(s, c).state.periods, code) == FindPeriod(s.periods, code)
  {
    CloseShape(s, c);
    SameCodesSameLookup(s.periods, CloseStep(s, c).state.periods, code);
  }

  lemma StepKeepsFound(s: State, c: Command, code: int)
    requires FindPeriod(s.periods, code).Some?
    ensures FindPeriod(Step(s, c).state.periods, code) == FindPeriod(s.periods, code)
  {
    if c.Close? {
      CloseKeepsFound(s, c, code);
    } else if c.OpenPeriod? {
      OpenShape(s, c);
      var t := OpenStep(s, c).state;
      if t.periods != s.periods {
        assert t.periods[..|s.periods|] == s.periods;
      }
    }
  }

  // ----------------------------------------------------------------- openings

  /** A command on record for a period that is found. */
  predicate OnRecord(s: State, k: string, record: OpenRecord, p: nat) {
    k in s.openings && s.openings[k] == record && FindPeriod(s.periods, record.code) == Some(p)
  }

  lemma CloseLeavesOpenings(s: State, c: Command)
    requires c.Close?
    ensures CloseStep(s, c).state.openings == s.openings
  {
    CloseShape(s, c);
  }

  lemma StepKeepsOpenings(s: State, c: Command, k: string)
    requires k in s.openings
    ensures k in Step(s, c).state.openings && Step(s, c).state.openings[k] == s.openings[k]
  {
    if c.Close? {
      CloseLeavesOpenings(s, c);
    } else if c.OpenPeriod? {
      OpeningOnlyOpens(s, c);
    }
  }

  lemma {:induction false} RunKeepsRecord(s: State, later: seq<Command>, k: string, record: OpenRecord, p: nat)
    requires OnRecord(s, k, record, p)
    ensures OnRecord(Run(s, later), k, record, p)
  {
    if later != [] {
      var before, c := Run(s, later[..|later| - 1]), later[|later| - 1];
      RunKeepsRecord(s, later[..|later| - 1], k, record, p);
      StepKeepsOpenings(before, c, k);
      StepKeepsFound(before, c, record.code);
    }
  }

  lemma OpeningIsOnRecord(s: State, c: Command)
    requires c.OpenPeriod? && OpenStep(s, c).reply.PeriodOpen?
    ensures OnRecord(OpenStep(s, c).state, c.openKey, OpenRecord(c.entity, c.code, c.start, c.end, c.hash),
              OpenStep(s, c).reply.period)
  {
    if MayBeOpened(s, c) {
      AddedPeriodKeepsFound(s.periods, Period(c.code, c.start.value, c.end.value, Open), c.code);
    }
  }

  lemma RecordAnswers(t: State, again: Command, record: OpenRecord, p: nat)
    requires again.OpenPeriod? && OnRecord(t, again.openKey, record, p)
    ensures OpenStep(t, again) ==
            Outcome(t,
              if OpenRecord(again.entity, again.code, again.start, again.end, again.hash) == record
              then PeriodOpen(p, true) else Refused(KeyConflict))
  {
  }

  /** Once an opening has been answered, then after any commands, whatever became of
      the period, the same command is answered with the same period, any other
      command under its key conflicts, and nothing is written. */
  lemma OpeningReplaysForever(s: State, c: Command, later: seq<Command>, again: Command)
    requires c.OpenPeriod? && OpenStep(s, c).reply.PeriodOpen?
    requires again.OpenPeriod? && again.openKey == c.openKey
    ensures var t := Run(OpenStep(s, c).state, later);
            OpenStep(t, again) ==
            Outcome(t, if again == c then PeriodOpen(OpenStep(s, c).reply.period, true) else Refused(KeyConflict))
  {
    var record := OpenRecord(c.entity, c.code, c.start, c.end, c.hash);
    OpeningIsOnRecord(s, c);
    RunKeepsRecord(OpenStep(s, c).state, later, c.openKey, record, OpenStep(s, c).reply.period);
    RecordAnswers(Run(OpenStep(s, c).state, later), again, record, OpenStep(s, c).reply.period);
  }

  predicate SameCalendar(ps: seq<Period>, qs: seq<Period>) {
    |ps| == |qs| && forall p :: 0 <= p < |ps| ==>
      qs[p].code == ps[p].code && qs[p].start == ps[p].start && qs[p].end == ps[p].end
  }

  lemma CloseLeavesCalendar(s: State, c: Command)
    requires c.Close?
    ensures SameCalendar(s.periods, CloseStep(s, c).state.periods)
  {
    CloseShape(s, c);
  }

  lemma SameCalendarKeepsRecords(s: State, t: State)
    requires OpeningsOk(s) && t.openings == s.openings && SameCalendar(s.periods, t.periods)
    ensures OpeningsOk(t)
  {
    forall k | k in t.openings ensures RecordOk(t.periods, t.openings[k]) {
      assert RecordOk(s.periods, s.openings[k]);
      SameCodesSameLookup(s.periods, t.periods, s.openings[k].code);
    }
  }

  lemma StepKeepsOpeningsOk(s: State, c: Command)
    requires OpeningsOk(s)
    ensures OpeningsOk(Step(s, c).state)
  {
    if c.OpenPeriod? {
      OpeningKeepsOpenings(s, c);
    } else if c.Close? {
      CloseLeavesOpenings(s, c);
      CloseLeavesCalendar(s, c);
      SameCalendarKeepsRecords(s, CloseStep(s, c).state);
    } else {
      SameCalendarKeepsRecords(s, Step(s, c).state);
    }
  }

  /** After any run every opening on record was for a period that exists, on the
      dates that the command named. */
  lemma {:induction false} RunKeepsOpeningsOk(closingWriter: bool, commands: seq<Command>)
    ensures OpeningsOk(Run(EmptyState(closingWriter), commands))
  {
    if commands != [] {
      RunKeepsOpeningsOk(closingWriter, commands[..|commands| - 1]);
      StepKeepsOpeningsOk(Run(EmptyState(closingWriter), commands[..|commands| - 1]), commands[|commands| - 1]);
    }
  }

  // -------------------------------------------------------------- soft closes

  /** A control row that records a soft close. */
  predicate SoftRow(s: State, k: (string, nat), control: Control) {
    k in s.controls && s.controls[k] == control && control.status == SoftClosed
  }

  lemma StepKeepsSoftRow(s: State, c: Command, k: (string, nat), control: Control)
    requires SoftRow(s, k, control)
    ensures var t := Step(s, c).state;
            SoftRow(t, k, control) || (k in t.controls && t.controls[k].status == HardClosed)
  {
    if c.Close? {
      CloseShape(s, c);
    } else {
      OtherCommandsShape(s, c);
    }
  }

  /** The period keeps its place, and what is hard-closed stays so. */
  lemma {:induction false} RunKeepsClosed(s: State, later: seq<Command>, book: string, code: int, p: nat)
    requires ControlOk(s) && book in s.charts && FindPeriod(s.periods, code) == Some(p)
    ensures var t := Run(s, later);
            && ControlOk(t) && book in t.charts && FindPeriod(t.periods, code) == Some(p) && p < |t.periods|
            && Rank(Effective(s, book, p)) <= Rank(Effective(t, book, p))
  {
    if later != [] {
      var before, c := Run(s, later[..|later| - 1]), later[|later| - 1];
      RunKeepsClosed(s, later[..|later| - 1], book, code, p);
      StepKeepsControlOk(before, c);
      StepKeepsFound(before, c, code);
      StatusesOnlyMoveForward(before, c, book, p);
    }
  }

  lemma HardCloseIsAnswered(s: State, p: nat, c: Command)
    requires c.Close? && c.status == HardClosed && c.book in s.charts && p < |s.periods| && (c.book, p) in s.controls
    requires CloseLocked(s, p, c).reply.Closed?
    ensures var t, reply := CloseLocked(s, p, c).state, CloseLocked(s, p, c).reply;
            && c.book in t.charts && p < |t.periods| && Effective(t, c.book, p) == HardClosed
            && (c.book, p) in t.snapshots && t.snapshots[(c.book, p)].key == c.key
            && t.snapshots[(c.book, p)].count == reply.count
  {
  }

  /** What a hard close that was answered leaves behind. */
  lemma HardCloseIsStored(s: State, c: Command, p: nat)
    requires ControlOk(s) && c.Close? && c.status == HardClosed && CloseStep(s, c).reply.Closed?
    requires FindPeriod(s.periods, c.code) == Some(p)
    ensures var t := CloseStep(s, c).state;
            && c.book in t.charts && FindPeriod(t.periods, c.code) == Some(p) && p < |t.periods|
            && Effective(t, c.book, p) == HardClosed
            && (c.book, p) in t.snapshots && t.snapshots[(c.book, p)].key == c.key
            && t.snapshots[(c.book, p)].count == CloseStep(s, c).reply.count
  {
    CloseKeepsFound(s, c, c.code);
    HardCloseIsAnswered(Materialized(s, p), p, c);
  }

  /** A later close of a hard-closed book period is answered from its snapshot. */
  lemma HardClosedAnswers(t: State, c: Command, p: nat)
    requires c.Close? && c.status != Open && c.book in t.charts && FindPeriod(t.periods, c.code) == Some(p)
    requires Effective(t, c.book, p) == HardClosed && (c.book, p) in t.snapshots
    ensures CloseStep(t, c).reply ==
            if c.status == SoftClosed then Refused(HardCloseIsFinal)
            else if t.snapshots[(c.book, p)].key != c.key then Refused(PeriodLocked)
            else Closed(HardClosed, t.snapshots[(c.book, p)].count, true)
  {
  }

  lemma HardClosedAnswersLater(s: State, later: seq<Command>, c: Command, p: nat)
    requires ControlOk(s) && c.Close? && c.status != Open && c.book in s.charts
             && FindPeriod(s.periods, c.code) == Some(p)
    requires Effective(s, c.book, p) == HardClosed && (c.book, p) in s.snapshots
    ensures CloseStep(Run(s, later), c).reply ==
            if c.status == SoftClosed then Refused(HardCloseIsFinal)
            else if s.snapshots[(c.book, p)].key != c.key then Refused(PeriodLocked)
            else Closed(HardClosed, s.snapshots[(c.book, p)].count, true)
  {
    RunKeepsClosed(s, later, c.book, c.code, p);
    RunOnlyAppends(s, later);
    HardClosedAnswers(Run(s, later), c, p);
  }

  /** Once a book period has been hard-closed, then after any commands the same
      close returns the count that was stored, another key finds the period locked,
      and a soft close comes too late. */
  lemma HardCloseReplaysForever(s: State, c: Command, p: nat, later: seq<Command>, again: Command)
    requires ControlOk(s) && c.Close? && c.status == HardClosed && CloseStep(s, c).reply.Closed?
    requires FindPeriod(s.periods, c.code) == Some(p)
    requires again.Close? && again.status != Open && again.book == c.book && again.code == c.code
    ensures CloseStep(Run(CloseStep(s, c).state, later), again).reply ==
            if again.status == SoftClosed then Refused(HardCloseIsFinal)
            else if again.key != c.key then Refused(PeriodLocked)
            else Closed(HardClosed, CloseStep(s, c).reply.count, true)
  {
    HardCloseIsStored(s, c, p);
    CloseKeepsControlOk(s, c);
    HardClosedAnswersLater(CloseStep(s, c).state, later, again, p);
  }

  lemma {:induction false} RunKeepsSoftRow(s: State, later: seq<Command>, book: string, code: int, p: nat,
      control: Control)
    requires ControlOk(s) && FindPeriod(s.periods, code) == Some(p) && SoftRow(s, (book, p), control)
    ensures var t := Run(s, later);
            && ControlOk(t) && book in t.charts && FindPeriod(t.periods, code) == Some(p) && p < |t.periods|
            && (SoftRow(t, (book, p), control) || Effective(t, book, p) == HardClosed)
  {
    assert book in s.charts;
    RunKeepsClosed(s, later, book, code, p);
    if later != [] {
      var before, c := Run(s, later[..|later| - 1]), later[|later| - 1];
      RunKeepsSoftRow(s, later[..|later| - 1], book, code, p, control);
      if SoftRow(before, (book, p), control) {
        StepKeepsSoftRow(before, c, (book, p), control);
      } else {
        StatusesOnlyMoveForward(before, c, book, p);
      }
    }
  }

  /** What a first soft close leaves behind. */
  lemma SoftCloseIsStored(s: State, c: Command, p: nat)
    requires c.Close? && c.status == SoftClosed && FirstClose(CloseStep(s, c))
    requires FindPeriod(s.periods, c.code) == Some(p)
    ensures SoftRow(CloseStep(s, c).state, (c.book, p),
              Control(SoftClosed, Some(SoftEvidence(c.key, CloseStep(s, c).reply.count))))
  {
    var locked := Materialized(s, p);
    CloseLockedCases(locked, p, c);
  }

  /** A soft close while the book period is soft-closed is answered from its row. */
  lemma SoftClosedAnswers(t: State, c: Command, p: nat, evidence: SoftEvidence)
    requires c.Close? && c.status == SoftClosed && c.book in t.charts && FindPeriod(t.periods, c.code) == Some(p)
    requires SoftRow(t, (c.book, p), Control(SoftClosed, Some(evidence)))
    ensures CloseStep(t, c).reply ==
            if evidence.key != c.key then Refused(KeyConflict) else Closed(SoftClosed, evidence.count, true)
  {
  }

  lemma SoftClosedAnswersLater(s: State, later: seq<Command>, c: Command, p: nat, evidence: SoftEvidence)
    requires ControlOk(s) && c.Close? && c.status == SoftClosed && FindPeriod(s.periods, c.code) == Some(p)
    requires SoftRow(s, (c.book, p), Control(SoftClosed, Some(evidence)))
    ensures var t := Run(s, later);
            && p < |t.periods|
            && (Effective(t, c.book, p) != HardClosed ==>
                  CloseStep(t, c).reply ==
                  if evidence.key != c.key then Refused(KeyConflict) else Closed(SoftClosed, evidence.count, true))
  {
    RunKeepsSoftRow(s, later, c.book, c.code, p, Control(SoftClosed, Some(evidence)));
    var t := Run(s, later);
    if Effective(t, c.book, p) != HardClosed {
      SoftClosedAnswers(t, c, p, evidence);
    }
  }

  /** Once a book period has been soft-closed, then after any commands, whatever
      they added to the ledger, the same soft close returns the count stored with
      it and another key conflicts, until a hard close makes it too late. */
  lemma SoftCloseReplaysUntilHard(s: State, c: Command, p: nat, later: seq<Command>, again: Command)
    requires ControlOk(s) && c.Close? && c.status == SoftClosed && FirstClose(CloseStep(s, c))
    requires FindPeriod(s.periods, c.code) == Some(p)
    requires again.Close? && again.status == SoftClosed && again.book == c.book && again.code == c.code
    ensures var t := Run(CloseStep(s, c).state, later);
            && p < |t.periods|
            && (Effective(t, c.book, p) != HardClosed ==>
                  CloseStep(t, again).reply ==
                  if again.key != c.key then Refused(KeyConflict)
                  else Closed(SoftClosed, CloseStep(s, c).reply.count, true))
  {
    SoftCloseIsStored(s, c, p);
    CloseKeepsFound(s, c, c.code);
    CloseKeepsControlOk(s, c);
    SoftClosedAnswersLater(CloseStep(s, c).state, later, again, p, SoftEvidence(c.key, CloseStep(s, c).reply.count));
  }
}
