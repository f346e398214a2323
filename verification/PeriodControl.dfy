/** The lazily created per-book control rows behave like a plain map from book
    and period to status. Nothing here depends on the order of commands. */
module PeriodControl {
  import opened JournalTables
  import opened BookStore
  import opened CloseInvariant

  /** The plain map that the control table and the calendar stand for. */
  function Statuses(s: State): map<(string, nat), Status> {
    map book, p: nat | book in s.charts && p < |s.periods| :: (book, p) := Effective(s, book, p)
  }

  function Rank(status: Status): nat {
    match status case Open => 0 case SoftClosed => 1 case HardClosed => 2
  }

  ghost predicate ControlOk(s: State) {
    && (forall k :: k in s.controls ==> k.0 in s.charts && k.1 < |s.periods|)
    && CalendarOk(s)
  }

  predicate FirstClose(outcome: Outcome) {
    outcome.reply.Closed? && !outcome.reply.replayed
  }

  lemma SameEffectiveSameStatuses(s: State, t: State)
    requires SameEffective(s, t) && |t.periods| == |s.periods|
    ensures Statuses(t) == Statuses(s)
  {
  }

  lemma MaterializedEffective(s: State, p: nat)
    requires p < |s.periods|
    ensures SameEffective(s, Materialized(s, p)) && Locked(Materialized(s, p), p)
  {
  }

  lemma MaterializedStatuses(s: State, p: nat)
    requires p < |s.periods|
    ensures Statuses(Materialized(s, p)) == Statuses(s) && Locked(Materialized(s, p), p)
  {
    MaterializedEffective(s, p);
    SameEffectiveSameStatuses(s, Materialized(s, p));
  }

  lemma BookClosedStatuses(s: State, book: string, p: nat, control: Control)
    requires p < |s.periods| && book in s.charts && Locked(s, p)
    ensures Statuses(WithBookClosed(s, book, p, control)) == Statuses(s)[(book, p) := control.status]
  {
    BookClosedEffective(s, book, p, control);
  }

  lemma SameTablesSameStatuses(s: State, t: State)
    requires t.charts == s.charts && t.periods == s.periods && t.controls == s.controls
    ensures Statuses(t) == Statuses(s)
  {
    SameEffectiveSameStatuses(s, t);
  }

  /** t is s with journals and snapshots added and one control row closed. */
  predicate OneRowClosed(s: State, t: State, book: string, p: nat, status: Status)
    requires p < |s.periods|
  {
    && (book, p) in t.controls && t.controls[(book, p)].status == status
    && t == WithBookClosed(s.(journals := t.journals, snapshots := t.snapshots), book, p, t.controls[(book, p)])
  }

  lemma FrozenShapeOfControl(s: State, book: string, p: nat, key: Key)
    requires book in s.charts && p < |s.periods| && (book, p) in s.controls
    ensures OneRowClosed(s, Frozen(s, book, p, key), book, p, HardClosed)
  {
  }

  lemma ClosingLeavesControl(s: State, book: string, p: nat)
    requires p < |s.periods| && book in s.charts
    ensures var posted := WithClosingJournal(s, book, p).state;
            posted == s.(journals := posted.journals)
  {
  }

  lemma PersistCloseShape(s: State, book: string, p: nat, key: Key)
    requires book in s.charts && p < |s.periods| && (book, p) in s.controls
    ensures var outcome := PersistClose(s, book, p, key);
            if outcome.reply.Refused? then outcome.state == s
            else FirstClose(outcome) && OneRowClosed(s, outcome.state, book, p, HardClosed)
  {
    ClosingLeavesControl(s, book, p);
    FrozenShapeOfControl(WithClosingJournal(s, book, p).state, book, p, key);
  }

  lemma PersistSoftCloseShape(s: State, book: string, p: nat, key: Key)
    requires p < |s.periods|
    ensures var outcome := PersistSoftClose(s, book, p, key);
            if outcome.reply.Refused? then outcome.state == s
            else FirstClose(outcome) && OneRowClosed(s, outcome.state, book, p, SoftClosed)
  {
  }

  lemma CloseLockedShape(s: State, p: nat, c: Command)
    requires c.Close? && c.status != Open && c.book in s.charts && p < |s.periods| && (c.book, p) in s.controls
    ensures var outcome := CloseLocked(s, p, c);
            if FirstClose(outcome)
            then OneRowClosed(s, outcome.state, c.book, p, c.status) && Rank(Effective(s, c.book, p)) < Rank(c.status)
            else outcome.state == s
  {
    CloseLockedCases(s, p, c);
    PersistCloseShape(s, c.book, p, c.key);
    PersistSoftCloseShape(s, c.book, p, c.key);
  }

  /** What a close does to period control, and that a refusal or a replay does
      nothing beyond creating rows. */
  lemma CloseShape(s: State, c: Command)
    requires c.Close?
    ensures var outcome := CloseStep(s, c);
            if FirstClose(outcome)
            then
              && c.book in s.charts && FindPeriod(s.periods, c.code).Some?
              && var p := FindPeriod(s.periods, c.code).value;
                 && OneRowClosed(Materialized(s, p), outcome.state, c.book, p, c.status)
                 && Rank(Effective(Materialized(s, p), c.book, p)) < Rank(c.status)
            else
              || outcome.state == s
              || (FindPeriod(s.periods, c.code).Some? &&
                  outcome.state == Materialized(s, FindPeriod(s.periods, c.code).value))
  {
    var found := FindPeriod(s.periods, c.code);
    if c.status != Open && c.book in s.charts && found.Some? {
      CloseLockedShape(Materialized(s, found.value), found.value, c);
    }
  }

  lemma OneRowClosedStatuses(s: State, t: State, book: string, p: nat, status: Status)
    requires p < |s.periods| && book in s.charts && Locked(s, p) && OneRowClosed(s, t, book, p, status)
    ensures Statuses(t) == Statuses(s)[(book, p) := status]
  {
    var u := s.(journals := t.journals, snapshots := t.snapshots);
    SameTablesSameStatuses(s, u);
    BookClosedStatuses(u, book, p, t.controls[(book, p)]);
  }

  /** A close is one update of the plain map: a first close sets exactly its own
      entry and only moves it forward; a replay or a refusal changes nothing,
      though it may create rows. */
  lemma CloseRefinesPlainMap(s: State, c: Command)
    requires c.Close?
    ensures var outcome := CloseStep(s, c);
            && (FirstClose(outcome) ==>
                  var p := FindPeriod(s.periods, c.code).value;
                  && Statuses(outcome.state) == Statuses(s)[(c.book, p) := c.status]
                  && Rank(Effective(s, c.book, p)) < Rank(c.status))
            && (!FirstClose(outcome) ==> Statuses(outcome.state) == Statuses(s))
    ensures FirstClose(CloseStep(s, c)) ==> FindPeriod(s.periods, c.code).Some? && c.book in s.charts
  {
    CloseShape(s, c);
    var found := FindPeriod(s.periods, c.code);
    if found.Some? {
      var p := found.value;
      MaterializedStatuses(s, p);
      if FirstClose(CloseStep(s, c)) {
        OneRowClosedStatuses(Materialized(s, p), CloseStep(s, c).state, c.book, p, c.status);
        assert Statuses(Materialized(s, p))[(c.book, p)] == Statuses(s)[(c.book, p)];
      }
    }
  }

  lemma OtherCommandsShape(s: State, c: Command)
    requires !c.Close?
    ensures var t := Step(s, c).state;
            && t.controls == s.controls
            && (t.periods == s.periods ||
                exists period: Period :: period.status == Open && t.periods == s.periods + [period])
            && (t.charts == s.charts ||
                (c.RegisterBook? && c.book !in s.charts && t == s.(charts := s.charts[c.book := c.chart])))
  {
    if c.OpenPeriod? {
      OpenShape(s, c);
    }
  }

  /** Books and periods that were there keep their status; a new period is open, and a
      new book follows the calendar. */
  lemma GrownEffective(s: State, t: State, book: string, p: nat)
    requires ControlOk(s) && t.controls == s.controls && s.charts.Keys <= t.charts.Keys
    requires s.periods <= t.periods && |t.periods| <= |s.periods| + 1
    requires |t.periods| > |s.periods| ==> t.periods[|s.periods|].status == Open
    requires book in t.charts && p < |t.periods|
    ensures Effective(t, book, p) ==
            if book in s.charts && p < |s.periods| then Effective(s, book, p)
            else if p < |s.periods| then s.periods[p].status else Open
  {
    if book !in s.charts || p >= |s.periods| {
      assert (book, p) !in s.controls;
    }
  }

  lemma GrownTables(s: State, t: State)
    requires ControlOk(s) && t.controls == s.controls && s.charts.Keys <= t.charts.Keys
    requires t.periods == s.periods ||
             exists period: Period :: period.status == Open && t.periods == s.periods + [period]
    ensures Statuses(s).Keys <= Statuses(t).Keys
    ensures forall k :: k in Statuses(s) ==> Statuses(t)[k] == Statuses(s)[k]
    ensures forall k :: k in Statuses(t) && k !in Statuses(s) ==>
              Statuses(t)[k] == if k.1 < |s.periods| then s.periods[k.1].status else Open
  {
    assert s.periods <= t.periods;
    assert |t.periods| > |s.periods| ==> t.periods[|s.periods|].status == Open && |t.periods| == |s.periods| + 1;
    forall k | k in Statuses(t)
      ensures Statuses(t)[k] ==
              if k in Statuses(s) then Statuses(s)[k]
              else if k.1 < |s.periods| then s.periods[k.1].status else Open
    {
      GrownEffective(s, t, k.0, k.1);
    }
  }

  /** The other commands: posting never touches a status, a new period is open
      for every book, a new book starts with the calendar's statuses. */
  lemma OtherCommandsRefinePlainMap(s: State, c: Command)
    requires ControlOk(s) && !c.Close?
    ensures var t := Step(s, c).state;
            && Statuses(s).Keys <= Statuses(t).Keys
            && (forall k :: k in Statuses(s) ==> Statuses(t)[k] == Statuses(s)[k])
            && (forall k :: k in Statuses(t) && k !in Statuses(s) ==>
                  Statuses(t)[k] == if k.1 < |s.periods| then s.periods[k.1].status else Open)
  {
    OtherCommandsShape(s, c);
    GrownTables(s, Step(s, c).state);
  }

  predicate MovesForward(before: map<(string, nat), Status>, after: map<(string, nat), Status>) {
    forall k :: k in before ==> k in after && Rank(before[k]) <= Rank(after[k])
  }

  lemma OneEntryMovesForward(before: map<(string, nat), Status>, after: map<(string, nat), Status>, k: (string, nat))
    requires k in before && k in after && after == before[k := after[k]] && Rank(before[k]) <= Rank(after[k])
    ensures MovesForward(before, after)
  {
  }

  lemma CloseMovesForward(s: State, c: Command)
    requires c.Close?
    ensures MovesForward(Statuses(s), Statuses(Step(s, c).state))
  {
    assert Step(s, c) == CloseStep(s, c);
    CloseRefinesPlainMap(s, c);
    if FirstClose(CloseStep(s, c)) {
      var p := FindPeriod(s.periods, c.code).value;
      assert (c.book, p) in Statuses(s);
      OneEntryMovesForward(Statuses(s), Statuses(CloseStep(s, c).state), (c.book, p));
    }
  }

  lemma GrowthMovesForward(s: State, t: State)
    requires ControlOk(s) && t.controls == s.controls && s.charts.Keys <= t.charts.Keys
    requires t.periods == s.periods ||
             exists period: Period :: period.status == Open && t.periods == s.periods + [period]
    ensures MovesForward(Statuses(s), Statuses(t))
  {
    GrownTables(s, t);
  }

  lemma OthersMoveForward(s: State, c: Command)
    requires ControlOk(s) && !c.Close?
    ensures MovesForward(Statuses(s), Statuses(Step(s, c).state))
  {
    OtherCommandsShape(s, c);
    GrowthMovesForward(s, Step(s, c).state);
  }

  lemma StepMovesForward(s: State, c: Command)
    requires ControlOk(s)
    ensures MovesForward(Statuses(s), Statuses(Step(s, c).state))
  {
    if c.Close? {
      CloseMovesForward(s, c);
    } else {
      OthersMoveForward(s, c);
    }
  }

  lemma EntryMovesForward(s: State, t: State, book: string, p: nat)
    requires book in s.charts && p < |s.periods| && MovesForward(Statuses(s), Statuses(t))
    ensures book in t.charts && p < |t.periods| && Rank(Effective(s, book, p)) <= Rank(Effective(t, book, p))
  {
    assert (book, p) in Statuses(s);
  }

  /** Statuses only move from open to soft-closed to hard-closed. */
  lemma StatusesOnlyMoveForward(s: State, c: Command, book: string, p: nat)
    requires ControlOk(s) && book in s.charts && p < |s.periods|
    ensures var t := Step(s, c).state;
            && book in t.charts && p < |t.periods|
            && Rank(Effective(s, book, p)) <= Rank(Effective(t, book, p))
  {
    StepMovesForward(s, c);
    EntryMovesForward(s, Step(s, c).state, book, p);
  }

  // ------------------------------------------------------------- the calendar

  lemma NewPeriodCalendar(s: State, t: State)
    requires ControlOk(s) && t.charts == s.charts && t.controls == s.controls
    requires s.periods <= t.periods && |t.periods| <= |s.periods| + 1
    requires |t.periods| > |s.periods| ==> t.periods[|s.periods|].status == Open
    ensures ControlOk(t)
  {
    forall p | 0 <= p < |t.periods| ensures ShowsLeastClosed(t, p) {
      if p < |s.periods| {
        assert ShowsLeastClosed(s, p);
        assert forall book :: book in t.charts ==> Effective(t, book, p) == Effective(s, book, p);
      } else {
        assert forall book :: (book, p) !in t.controls;
        OpenForAll(t, p);
      }
    }
  }

  lemma NewBookCalendar(s: State, t: State, added: string, chart: Chart)
    requires ControlOk(s) && added !in s.charts && t == s.(charts := s.charts[added := chart])
    ensures ControlOk(t)
  {
    assert forall p :: 0 <= p < |s.periods| ==> Effective(t, added, p) == s.periods[p].status;
    NewBookFollowsCalendar(s, t, added, chart);
  }

  lemma SameEffectiveCalendar(s: State, t: State)
    requires ControlOk(s) && SameEffective(s, t) && t.periods == s.periods
    requires forall k :: k in t.controls ==> k.0 in t.charts && k.1 < |t.periods|
    ensures ControlOk(t)
  {
    forall p | 0 <= p < |t.periods| ensures ShowsLeastClosed(t, p) {
      assert ShowsLeastClosed(s, p);
    }
  }

  lemma BookClosedControlOk(s: State, book: string, p: nat, control: Control)
    requires ControlOk(s) && p < |s.periods| && book in s.charts && Locked(s, p)
    ensures ControlOk(WithBookClosed(s, book, p, control))
  {
    BookClosedCalendar(s, book, p, control);
    BookClosedEffective(s, book, p, control);
  }

  lemma OneRowClosedControlOk(s: State, t: State, book: string, p: nat, status: Status)
    requires ControlOk(s) && p < |s.periods| && book in s.charts && Locked(s, p)
    requires OneRowClosed(s, t, book, p, status)
    ensures ControlOk(t)
  {
    var u := s.(journals := t.journals, snapshots := t.snapshots);
    SameEffectiveCalendar(s, u);
    BookClosedControlOk(u, book, p, t.controls[(book, p)]);
  }

  lemma MaterializedControlOk(s: State, p: nat)
    requires ControlOk(s) && p < |s.periods|
    ensures ControlOk(Materialized(s, p)) && Locked(Materialized(s, p), p)
  {
    SameEffectiveCalendar(s, Materialized(s, p));
  }

  lemma ClosedControlOk(s: State, t: State, book: string, p: nat, status: Status)
    requires ControlOk(s) && p < |s.periods| && book in s.charts
    requires OneRowClosed(Materialized(s, p), t, book, p, status)
    ensures ControlOk(t)
  {
    MaterializedControlOk(s, p);
    OneRowClosedControlOk(Materialized(s, p), t, book, p, status);
  }

  lemma CloseKeepsControlOk(s: State, c: Command)
    requires ControlOk(s) && c.Close?
    ensures ControlOk(CloseStep(s, c).state)
  {
    CloseShape(s, c);
    var found := FindPeriod(s.periods, c.code);
    if FirstClose(CloseStep(s, c)) {
      ClosedControlOk(s, CloseStep(s, c).state, c.book, found.value, c.status);
    } else if found.Some? {
      MaterializedControlOk(s, found.value);
    }
  }

  lemma StepKeepsControlOk(s: State, c: Command)
    requires ControlOk(s)
    ensures ControlOk(Step(s, c).state)
  {
    if c.Close? {
      CloseKeepsControlOk(s, c);
    } else {
      OtherCommandsShape(s, c);
      var t := Step(s, c).state;
      if t.charts != s.charts {
        NewBookCalendar(s, t, c.book, c.chart);
      } else {
        NewPeriodCalendar(s, t);
      }
    }
  }

  lemma LeastClosed(s: State)
    requires ControlOk(s)
    ensures forall p :: 0 <= p < |s.periods| && s.charts.Keys != {} ==>
              && (forall book :: book in s.charts ==> Rank(s.periods[p].status) <= Rank(Effective(s, book, p)))
              && (exists book :: book in s.charts && Effective(s, book, p) == s.periods[p].status)
  {
    forall p | 0 <= p < |s.periods| && s.charts.Keys != {}
      ensures forall book :: book in s.charts ==> Rank(s.periods[p].status) <= Rank(Effective(s, book, p))
      ensures exists book :: book in s.charts && Effective(s, book, p) == s.periods[p].status
    {
      assert ShowsLeastClosed(s, p);
      var some :| some in s.charts;
      match s.periods[p].status
      case HardClosed => assert Effective(s, some, p) == HardClosed;
      case Open =>
      case SoftClosed =>
        var book :| book in s.charts && Effective(s, book, p) != HardClosed;
        assert Effective(s, book, p) == SoftClosed;
    }
  }

  /** After any run at all, the calendar shows for each period the status of its
      least-closed active book. */
  lemma {:induction false} CalendarIsLeastClosed(closingWriter: bool, commands: seq<Command>)
    ensures var s := Run(EmptyState(closingWriter), commands);
            && ControlOk(s)
            && forall p :: 0 <= p < |s.periods| && s.charts.Keys != {} ==>
                 && (forall book :: book in s.charts ==>
                       Rank(s.periods[p].status) <= Rank(Effective(s, book, p)))
                 && (exists book :: book in s.charts && Effective(s, book, p) == s.periods[p].status)
  {
    if commands != [] {
      var init := commands[..|commands| - 1];
      CalendarIsLeastClosed(closingWriter, init);
      StepKeepsControlOk(Run(EmptyState(closingWriter), init), commands[|commands| - 1]);
    }
    LeastClosed(Run(EmptyState(closingWriter), commands));
  }
}
