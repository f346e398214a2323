/** What the store keeps in whatever order periods are opened and closed. */
module AnyOrder {
  import opened Sums
  import opened JournalTables
  import opened BookStore
  import opened CloseInvariant
  import opened SnapshotTheorems
  import opened PeriodControl
  import opened Replays

  /** The parts of the invariant that do not rest on the order of closes. */
  ghost predicate Consistent(s: State) {
    PeriodsOk(s) && JournalsOk(s) && ControlOk(s) && SnapshotsClosed(s)
  }

  /** All that is asked of commands: a new period overlaps no other, and a new book's
      chart is well formed. Closes may come in any order. */
  predicate Tidy(s: State, c: Command) {
    match c
    case OpenPeriod(_, code, start, end, _, _) =>
      FindPeriod(s.periods, code).None? && start.Some? && end.Some? ==>
        forall p :: 0 <= p < |s.periods| ==> Disjoint(s.periods[p], Period(code, start.value, end.value, Open))
    case RegisterBook(_, chart) => WellFormedChart(chart)
    case _ => true
  }

  ghost predicate TidyRun(s: State, commands: seq<Command>) {
    commands != [] ==>
      && TidyRun(s, commands[..|commands| - 1])
      && Tidy(Run(s, commands[..|commands| - 1]), commands[|commands| - 1])
  }

  lemma InvIsConsistent(s: State)
    requires Inv(s)
    ensures Consistent(s)
  {
    ControlOf(s);
    RecordsOf(s);
    SnapshotsAreClosed(s);
  }

  // ---------------------------------------------------------------- journals

  predicate TablesGrow(s: State, t: State) {
    && (forall book :: book in s.charts ==> book in t.charts && t.charts[book] == s.charts[book])
    && |s.periods| <= |t.periods|
    && forall q :: 0 <= q < |s.periods| ==>
         t.periods[q].start == s.periods[q].start && t.periods[q].end == s.periods[q].end
  }

  lemma JournalOkCarries(s: State, t: State, j: Journal)
    requires JournalOk(s, j) && TablesGrow(s, t)
    ensures JournalOk(t, j)
  {
  }

  /** What a command adds to the journals, if anything, is in order. */
  predicate OnlySound(s: State, js: seq<Journal>) {
    js == s.journals || (js != [] && js[..|js| - 1] == s.journals && JournalOk(s, js[|js| - 1]))
  }

  lemma InsertAddsSound(s: State, j: Journal, role: WriteRole)
    requires j.period < |s.periods| && (InsertRefusal(s, j, role).None? ==> JournalOk(s, j))
    ensures OnlySound(s, InsertOutcome(s, j, role).state.journals)
  {
    assert (s.journals + [j])[..|s.journals|] == s.journals;
  }

  lemma PostAddsSound(s: State, c: Command)
    requires c.Post?
    ensures OnlySound(s, PostStep(s, c).state.journals)
  {
    if PostStep(s, c).reply.Accepted? {
      var j := Journal(Ref.Posted(c.id), c.policy.book, CoveringPeriod(s.periods, c.date).value, c.date,
        Resolved(c.proposed, c.policy.mapping), c.key, Payload(c.hash), true);
      InsertedJournalOk(s, j, Ordinary);
      InsertAddsSound(s, j, Ordinary);
    }
  }

  lemma AdjustmentAddsSound(s: State, c: Command)
    requires c.Adjust?
    ensures OnlySound(s, AdjustStep(s, c).state.journals)
  {
    if AdjustStep(s, c).reply.Accepted? {
      var j := Journal(Ref.Posted(c.id), c.book, FindPeriod(s.periods, c.code).value, c.date, c.lines, c.key,
        Payload(c.hash), true);
      InsertedJournalOk(s, j, Adjusting);
      InsertAddsSound(s, j, Adjusting);
    }
  }

  lemma ReversalAddsSound(s: State, c: Command)
    requires c.Reverse? && JournalsOk(s)
    ensures OnlySound(s, ReverseStep(s, c).state.journals)
  {
    if ReverseStep(s, c).reply.Accepted? {
      var original := JournalByRef(s.journals, c.original).value;
      var j := Journal(ReversalOf(c.original), original.book, CoveringPeriod(s.periods, c.date).value, c.date,
        Opposite(original.lines), c.key, ReversalCommand(c.key, c.original, c.date, c.reason), true);
      assert JournalOk(s, original);
      InsertedJournalOk(s, j, Reversal);
      InsertAddsSound(s, j, Reversal);
    }
  }

  lemma ClosingAddsSound(s: State, book: string, p: nat)
    requires PeriodsOk(s) && book in s.charts && p < |s.periods|
    ensures OnlySound(s, WithClosingJournal(s, book, p).state.journals)
  {
    var closing := ClosingJournalOf(s, book, p);
    if closing.lines != [] && InsertRefusal(s, closing, PeriodClosing).None? {
      ClosingJournalIsOk(s, book, p);
    }
    if closing.lines != [] {
      InsertAddsSound(s, closing, PeriodClosing);
    }
  }

  lemma LockedAddsSound(s: State, p: nat, c: Command)
    requires c.Close? && c.status != Open && c.book in s.charts && p < |s.periods| && (c.book, p) in s.controls
    requires PeriodsOk(s)
    ensures OnlySound(s, CloseLocked(s, p, c).state.journals)
  {
    ClosingAddsSound(s, c.book, p);
    CloseJournals(s, p, c);
  }

  lemma LockKeepsPeriods(s: State, p: nat)
    requires PeriodsOk(s) && p < |s.periods|
    ensures PeriodsOk(Materialized(s, p))
  {
  }

  lemma SoundBeforeLock(s: State, p: nat, js: seq<Journal>)
    requires p < |s.periods| && OnlySound(Materialized(s, p), js)
    ensures OnlySound(s, js)
  {
    if js != s.journals {
      JournalOkCarries(Materialized(s, p), s, js[|js| - 1]);
    }
  }

  lemma CloseAddsSound(s: State, c: Command)
    requires PeriodsOk(s) && c.Close?
    ensures OnlySound(s, CloseStep(s, c).state.journals)
  {
    var found := FindPeriod(s.periods, c.code);
    if c.status != Open && c.book in s.charts && found.Some? {
      var locked := Materialized(s, found.value);
      LockKeepsPeriods(s, found.value);
      LockedAddsSound(locked, found.value, c);
      SoundBeforeLock(s, found.value, CloseLocked(locked, found.value, c).state.journals);
    }
  }

  lemma StepAddsSound(s: State, c: Command)
    requires PeriodsOk(s) && JournalsOk(s)
    ensures OnlySound(s, Step(s, c).state.journals)
  {
    if c.Close? {
      CloseAddsSound(s, c);
    } else if c.Reverse? {
      ReversalAddsSound(s, c);
    } else if c.Post? {
      PostAddsSound(s, c);
    } else if c.Adjust? {
      AdjustmentAddsSound(s, c);
    } else {
      assert Step(s, c).state.journals == s.journals;
    }
  }

  lemma StepGrowsTables(s: State, c: Command)
    ensures TablesGrow(s, Step(s, c).state)
  {
    StepOnlyAppends(s, c);
    if c.Close? {
      CloseLeavesCalendar(s, c);
    } else if c.OpenPeriod? {
      OpenShape(s, c);
    } else {
      assert Step(s, c).state.periods == s.periods;
    }
  }

  lemma GrowthKeepsJournals(s: State, t: State)
    requires JournalsOk(s) && TablesGrow(s, t) && OnlySound(s, t.journals)
    ensures JournalsOk(t)
  {
    forall j | j in t.journals ensures JournalOk(t, j) {
      assert j in s.journals || j == t.journals[|t.journals| - 1];
      JournalOkCarries(s, t, j);
    }
  }

  // ------------------------------------------------------ periods and snapshots

  lemma SameCalendarKeepsPeriods(s: State, t: State)
    requires PeriodsOk(s) && ControlOk(t) && SameCalendar(s.periods, t.periods) && t.charts == s.charts
    ensures PeriodsOk(t)
  {
  }

  lemma OpeningKeepsPeriods(s: State, c: Command)
    requires PeriodsOk(s) && c.OpenPeriod? && Tidy(s, c)
    ensures PeriodsOk(OpenStep(s, c).state)
  {
    OpenShape(s, c);
  }

  lemma CloseKeepsPeriods(s: State, c: Command)
    requires PeriodsOk(s) && c.Close? && ControlOk(CloseStep(s, c).state)
    ensures PeriodsOk(CloseStep(s, c).state)
  {
    CloseLeavesCalendar(s, c);
    CloseOnlyAppends(s, c);
    SameCalendarKeepsPeriods(s, CloseStep(s, c).state);
  }

  lemma RegisterKeepsPeriods(s: State, c: Command)
    requires PeriodsOk(s) && c.RegisterBook? && Tidy(s, c)
    ensures PeriodsOk(RegisterStep(s, c).state)
  {
  }

  lemma PostingLeavesTables(s: State, c: Command)
    requires c.Post? || c.Adjust? || c.Reverse?
    ensures var t := Step(s, c).state; t == s.(journals := t.journals)
  {
  }

  lemma StepKeepsPeriods(s: State, c: Command)
    requires PeriodsOk(s) && Tidy(s, c) && ControlOk(Step(s, c).state)
    ensures PeriodsOk(Step(s, c).state)
  {
    if c.Close? {
      CloseKeepsPeriods(s, c);
    } else if c.OpenPeriod? {
      OpeningKeepsPeriods(s, c);
    } else if c.RegisterBook? {
      RegisterKeepsPeriods(s, c);
    } else {
      PostingLeavesTables(s, c);
    }
  }

  lemma LockedCloseFreezes(s: State, p: nat, c: Command)
    requires c.Close? && c.status == HardClosed && c.book in s.charts && p < |s.periods| && (c.book, p) in s.controls
    requires FirstClose(CloseLocked(s, p, c))
    ensures var posted := WithClosingJournal(s, c.book, p);
            && !posted.reply.Refused? && (c.book, p) in posted.state.controls
            && CloseLocked(s, p, c).state == Frozen(posted.state, c.book, p, c.key)
  {
    CloseLockedCases(s, p, c);
    ClosingOnlyAppends(s, c.book, p);
  }

  /** What an accepted first hard close does, in one expression. */
  lemma HardCloseFreezes(s: State, c: Command, p: nat)
    requires c.Close? && c.status == HardClosed && FindPeriod(s.periods, c.code) == Some(p)
    requires CloseStep(s, c).reply.Closed? && !CloseStep(s, c).reply.replayed
    ensures c.book in s.charts
    ensures var posted := WithClosingJournal(Materialized(s, p), c.book, p);
            && !posted.reply.Refused? && (c.book, p) in posted.state.controls
            && CloseStep(s, c).state == Frozen(posted.state, c.book, p, c.key)
  {
    LockedCloseFreezes(Materialized(s, p), p, c);
  }

  lemma LockedSnapshots(s: State, p: nat, c: Command)
    requires c.Close? && c.status != Open && c.book in s.charts && p < |s.periods| && (c.book, p) in s.controls
    ensures var outcome := CloseLocked(s, p, c);
            forall k :: k in outcome.state.snapshots && k !in s.snapshots ==>
              FirstClose(outcome) && c.status == HardClosed && k == (c.book, p)
  {
    CloseLockedShape(s, p, c);
    CloseLockedCases(s, p, c);
    if c.status == HardClosed && FirstClose(CloseLocked(s, p, c)) {
      LockedCloseFreezes(s, p, c);
      ClosingOnlyAppends(s, c.book, p);
      FrozenShape(WithClosingJournal(s, c.book, p).state, c.book, p, c.key);
    }
  }

  /** Only a first hard close stores a snapshot, of the period it closes. */
  lemma CloseSnapshots(s: State, c: Command)
    requires c.Close?
    ensures var t, found := CloseStep(s, c).state, FindPeriod(s.periods, c.code);
            forall k :: k in t.snapshots && k !in s.snapshots ==>
              && FirstClose(CloseStep(s, c)) && c.status == HardClosed && found.Some? && k == (c.book, found.value)
  {
    var found := FindPeriod(s.periods, c.code);
    if c.status != Open && c.book in s.charts && found.Some? {
      LockedSnapshots(Materialized(s, found.value), found.value, c);
    }
  }

  lemma OnlyClosesStore(s: State, c: Command)
    ensures !c.Close? ==> Step(s, c).state.snapshots == s.snapshots
  {
  }

  lemma NewSnapshotIsClosed(s: State, c: Command, k: (string, nat))
    requires c.Close? && k in CloseStep(s, c).state.snapshots && k !in s.snapshots
    ensures var t := CloseStep(s, c).state;
            k.0 in t.charts && k.1 < |t.periods| && Effective(t, k.0, k.1) == HardClosed
  {
    CloseSnapshots(s, c);
    CloseRefinesPlainMap(s, c);
    assert k in Statuses(CloseStep(s, c).state);
  }

  lemma StepSnapshotsClosed(s: State, c: Command, k: (string, nat))
    requires ControlOk(s) && SnapshotsClosed(s) && k in Step(s, c).state.snapshots
    ensures var t := Step(s, c).state;
            k.0 in t.charts && k.1 < |t.periods| && Effective(t, k.0, k.1) == HardClosed
  {
    OnlyClosesStore(s, c);
    if k in s.snapshots {
      StatusesOnlyMoveForward(s, c, k.0, k.1);
    } else {
      NewSnapshotIsClosed(s, c, k);
    }
  }

  // -------------------------------------------------------------- over all runs

  lemma StepKeepsConsistent(s: State, c: Command)
    requires Consistent(s) && Tidy(s, c)
    ensures Consistent(Step(s, c).state)
  {
    var t := Step(s, c).state;
    StepKeepsControlOk(s, c);
    StepKeepsPeriods(s, c);
    StepAddsSound(s, c);
    StepGrowsTables(s, c);
    GrowthKeepsJournals(s, t);
    forall k | k in t.snapshots ensures k.0 in t.charts && k.1 < |t.periods| && Effective(t, k.0, k.1) == HardClosed {
      StepSnapshotsClosed(s, c, k);
    }
  }

  lemma CloseKeepsConsistent(s: State, c: Command)
    requires Consistent(s) && c.Close?
    ensures Consistent(CloseStep(s, c).state)
  {
    StepKeepsConsistent(s, c);
  }

  lemma OpeningKeepsConsistent(s: State, c: Command)
    requires Consistent(s) && c.OpenPeriod? && Tidy(s, c)
    ensures Consistent(OpenStep(s, c).state)
  {
    StepKeepsConsistent(s, c);
  }

  /** After every run with disjoint periods and well-formed charts, whatever the order
      of openings and closes, journals are in order, control rows and the calendar
      agree, and every snapshot is of a hard-closed book period. */
  lemma {:induction false} RunKeepsConsistent(closingWriter: bool, commands: seq<Command>)
    requires TidyRun(EmptyState(closingWriter), commands)
    ensures Consistent(Run(EmptyState(closingWriter), commands))
  {
    if commands != [] {
      RunKeepsConsistent(closingWriter, commands[..|commands| - 1]);
      StepKeepsConsistent(Run(EmptyState(closingWriter), commands[..|commands| - 1]), commands[|commands| - 1]);
    }
  }
}
