/** What the order of hard closes is for: the exact condition, over every run, under
    which what a hard close stored keeps agreeing with the ledger. */
module SnapshotOrder {
  import opened Sums
  import opened JournalTables
  import opened BookStore
  import opened CloseInvariant
  import opened AcceptedCommands
  import opened SnapshotTheorems
  import opened PeriodControl
  import opened Replays
  import opened AnyOrder

  /** Nobody may write into the book's period any more: it is hard-closed, or it is
      soft-closed and the closing writer does not log in. */
  predicate Shut(s: State, book: string, p: nat)
    requires p < |s.periods|
  {
    || Effective(s, book, p) == HardClosed
    || (Effective(s, book, p) == SoftClosed && !s.closingWriter)
  }

  predicate EarlierShut(s: State, book: string, p: nat)
    requires p < |s.periods|
  {
    forall q :: 0 <= q < |s.periods| && s.periods[q].start < s.periods[p].start ==> Shut(s, book, q)
  }

  /** The only premise on a run: new periods neither overlap old ones nor come before
      anything hard-closed. */
  ghost predicate OpeningsInOrder(s: State, commands: seq<Command>) {
    commands != [] ==>
      && OpeningsInOrder(s, commands[..|commands| - 1])
      && (commands[|commands| - 1].OpenPeriod? ==>
            Orderly(Run(s, commands[..|commands| - 1]), commands[|commands| - 1]))
  }

  predicate StillFresh(s: State, book: string, p: nat) {
    book in s.charts && p < |s.periods| && (book, p) in s.snapshots && Fresh(s, book, p)
  }

  /** The snapshot equals the live ledger after every later run. */
  ghost predicate Lasts(s: State, book: string, p: nat) {
    forall later: seq<Command> :: OpeningsInOrder(s, later) ==> StillFresh(Run(s, later), book, p)
  }

  // --------------------------------------------- shut periods keep it for ever

  predicate TidyPeriods(s: State) {
    && (forall p :: 0 <= p < |s.periods| ==> s.periods[p].start <= s.periods[p].end)
    && (forall p, q :: 0 <= p < q < |s.periods| ==> Disjoint(s.periods[p], s.periods[q]))
  }

  ghost predicate Guarded(s: State, book: string, p: nat) {
    && ControlOk(s) && TidyPeriods(s) && StillFresh(s, book, p)
    && Effective(s, book, p) == HardClosed && EarlierShut(s, book, p)
  }

  /** A journal that a command adds is dated in a period its book may write into. */
  predicate Admitted(s: State, j: Journal) {
    && j.book in s.charts && j.period < |s.periods| && Covers(s.periods[j.period], j.date)
    && !Shut(s, j.book, j.period)
  }

  predicate OnlyAdmitted(s: State, js: seq<Journal>) {
    js == s.journals || (js != [] && js[..|js| - 1] == s.journals && Admitted(s, js[|js| - 1]))
  }

  lemma InsertIsAdmitted(s: State, j: Journal, role: WriteRole)
    requires j.period < |s.periods| && Covers(s.periods[j.period], j.date)
    ensures OnlyAdmitted(s, InsertOutcome(s, j, role).state.journals)
  {
    assert (s.journals + [j])[..|s.journals|] == s.journals;
  }

  lemma PostIsAdmitted(s: State, c: Command)
    requires c.Post?
    ensures OnlyAdmitted(s, PostStep(s, c).state.journals)
  {
    var covering := CoveringPeriod(s.periods, c.date);
    if covering.Some? && AllMapped(c.proposed, c.policy.mapping) {
      InsertIsAdmitted(s,
        Journal(Ref.Posted(c.id), c.policy.book, covering.value, c.date, Resolved(c.proposed, c.policy.mapping),
          c.key, Payload(c.hash), true),
        Ordinary);
    }
  }

  lemma AdjustmentIsAdmitted(s: State, c: Command)
    requires c.Adjust?
    ensures OnlyAdmitted(s, AdjustStep(s, c).state.journals)
  {
    var found := FindPeriod(s.periods, c.code);
    if found.Some? && Covers(s.periods[found.value], c.date) {
      InsertIsAdmitted(s,
        Journal(Ref.Posted(c.id), c.book, found.value, c.date, c.lines, c.key, Payload(c.hash), true), Adjusting);
    }
  }

  lemma ReversalIsAdmitted(s: State, c: Command)
    requires c.Reverse?
    ensures OnlyAdmitted(s, ReverseStep(s, c).state.journals)
  {
    var t := ReverseStep(s, c).state;
    if t.journals != s.journals {
      assert t.journals[..|t.journals| - 1] == s.journals;
    }
  }

  lemma ClosingIsAdmitted(s: State, book: string, p: nat)
    requires TidyPeriods(s) && book in s.charts && p < |s.periods|
    ensures OnlyAdmitted(s, WithClosingJournal(s, book, p).state.journals)
  {
    InsertIsAdmitted(s, ClosingJournalOf(s, book, p), PeriodClosing);
  }

  lemma AdmittedBeforeLock(s: State, p: nat, js: seq<Journal>)
    requires p < |s.periods| && OnlyAdmitted(Materialized(s, p), js)
    ensures OnlyAdmitted(s, js)
  {
    if js != s.journals {
      var j := js[|js| - 1];
      assert Effective(Materialized(s, p), j.book, j.period) == Effective(s, j.book, j.period);
    }
  }

  lemma CloseIsAdmitted(s: State, c: Command)
    requires TidyPeriods(s) && c.Close?
    ensures OnlyAdmitted(s, CloseStep(s, c).state.journals)
  {
    var found := FindPeriod(s.periods, c.code);
    if c.status != Open && c.book in s.charts && found.Some? {
      var locked := Materialized(s, found.value);
      ClosingIsAdmitted(locked, c.book, found.value);
      CloseJournals(locked, found.value, c);
      AdmittedBeforeLock(s, found.value, CloseLocked(locked, found.value, c).state.journals);
    }
  }

  lemma StepIsAdmitted(s: State, c: Command)
    requires TidyPeriods(s)
    ensures OnlyAdmitted(s, Step(s, c).state.journals)
  {
    if c.Close? {
      CloseIsAdmitted(s, c);
    } else if c.Reverse? {
      ReversalIsAdmitted(s, c);
    } else if c.Post? {
      PostIsAdmitted(s, c);
    } else if c.Adjust? {
      AdjustmentIsAdmitted(s, c);
    } else {
      assert Step(s, c).state.journals == s.journals;
    }
  }

  /** Behind a guarded snapshot nothing is admitted. */
  lemma AdmittedAfterGuarded(s: State, j: Journal, book: string, p: nat)
    requires Guarded(s, book, p) && Admitted(s, j) && j.book == book
    ensures j.date > s.periods[p].end
  {
    var q := j.period;
    assert q != p;
    assert Disjoint(s.periods[q], s.periods[p]);
    assert !Shut(s, book, q);
  }

  lemma AdmittedKeepsRows(s: State, js: seq<Journal>, book: string, p: nat)
    requires Guarded(s, book, p) && OnlyAdmitted(s, js)
    ensures var sel := Through(book, s.periods[p].end);
            Rows(s.charts[book], js, sel) == Rows(s.charts[book], s.journals, sel)
  {
    if js != s.journals {
      var j := js[|js| - 1];
      if j.book == book {
        AdmittedAfterGuarded(s, j, book, p);
      }
      assert js == s.journals + [j];
      RowsIgnoreUnselected(s.charts[book], s.journals, j, Through(book, s.periods[p].end));
    }
  }

  /** Known periods keep their dates, and a new one comes in order. */
  predicate CalendarGrows(s: State, t: State) {
    && |s.periods| <= |t.periods|
    && forall q :: 0 <= q < |s.periods| ==>
         t.periods[q].start == s.periods[q].start && t.periods[q].end == s.periods[q].end
  }

  predicate AfterHardClosed(s: State, t: State) {
    forall book, p, q :: book in s.charts && 0 <= p < |s.periods| <= q < |t.periods| &&
                         Effective(s, book, p) == HardClosed ==>
      t.periods[q].start > s.periods[p].end
  }

  lemma CloseKeepsCalendar(s: State, c: Command)
    requires c.Close?
    ensures CalendarGrows(s, CloseStep(s, c).state) && |CloseStep(s, c).state.periods| == |s.periods|
  {
    CloseShape(s, c);
  }

  lemma CloseLeavesWriter(s: State, c: Command)
    requires c.Close?
    ensures CloseStep(s, c).state.closingWriter == s.closingWriter
  {
    CloseShape(s, c);
  }

  lemma OpeningKeepsCalendar(s: State, c: Command)
    requires TidyPeriods(s) && c.OpenPeriod? && Orderly(s, c)
    ensures var t := OpenStep(s, c).state; CalendarGrows(s, t) && TidyPeriods(t) && AfterHardClosed(s, t)
    ensures OpenStep(s, c).state.closingWriter == s.closingWriter
  {
    OpenShape(s, c);
    OpeningOnlyOpens(s, c);
  }

  lemma StepKeepsCalendar(s: State, c: Command)
    requires TidyPeriods(s) && (c.OpenPeriod? ==> Orderly(s, c))
    ensures var t := Step(s, c).state; CalendarGrows(s, t) && TidyPeriods(t) && AfterHardClosed(s, t)
    ensures Step(s, c).state.closingWriter == s.closingWriter
  {
    if c.Close? {
      CloseKeepsCalendar(s, c);
      CloseLeavesWriter(s, c);
    } else if c.OpenPeriod? {
      OpeningKeepsCalendar(s, c);
    } else {
      assert Step(s, c).state.periods == s.periods;
    }
  }

  lemma ShutStaysShut(s: State, t: State, book: string, q: nat)
    requires q < |s.periods| && q < |t.periods| && t.closingWriter == s.closingWriter && Shut(s, book, q)
    requires Rank(Effective(s, book, q)) <= Rank(Effective(t, book, q))
    ensures Shut(t, book, q)
  {
  }

  lemma EarlierStaysShut(s: State, c: Command, book: string, p: nat)
    requires Guarded(s, book, p) && (c.OpenPeriod? ==> Orderly(s, c))
    ensures var t := Step(s, c).state;
            && book in t.charts && p < |t.periods|
            && Effective(t, book, p) == HardClosed && EarlierShut(t, book, p)
  {
    var t := Step(s, c).state;
    StepKeepsCalendar(s, c);
    StatusesOnlyMoveForward(s, c, book, p);
    forall q | 0 <= q < |t.periods| && t.periods[q].start < t.periods[p].start ensures Shut(t, book, q) {
      assert q < |s.periods|;
      StatusesOnlyMoveForward(s, c, book, q);
      assert Shut(s, book, q);
      ShutStaysShut(s, t, book, q);
    }
  }

  lemma StepKeepsFresh(s: State, c: Command, book: string, p: nat)
    requires Guarded(s, book, p) && (c.OpenPeriod? ==> Orderly(s, c))
    ensures StillFresh(Step(s, c).state, book, p)
  {
    StepKeepsCalendar(s, c);
    StepOnlyAppends(s, c);
    StepIsAdmitted(s, c);
    AdmittedKeepsRows(s, Step(s, c).state.journals, book, p);
  }

  lemma StepKeepsGuarded(s: State, c: Command, book: string, p: nat)
    requires Guarded(s, book, p) && (c.OpenPeriod? ==> Orderly(s, c))
    ensures Guarded(Step(s, c).state, book, p)
  {
    StepKeepsControlOk(s, c);
    StepKeepsCalendar(s, c);
    StepKeepsFresh(s, c, book, p);
    EarlierStaysShut(s, c, book, p);
  }

  lemma {:induction false} RunKeepsGuarded(s: State, later: seq<Command>, book: string, p: nat)
    requires Guarded(s, book, p) && OpeningsInOrder(s, later)
    ensures Guarded(Run(s, later), book, p)
  {
    if later != [] {
      RunKeepsGuarded(s, later[..|later| - 1], book, p);
      StepKeepsGuarded(Run(s, later[..|later| - 1]), later[|later| - 1], book, p);
    }
  }

  // ------------------------------------------- one adjustment is enough to break it

  /** What a hard close leaves intact, in order or not. */
  ghost predicate JustClosed(s: State, book: string, p: nat) {
    Consistent(s) && StillFresh(s, book, p) && Effective(s, book, p) == HardClosed
  }

  // A command key and a proposal id that no journal uses yet.

  function Longest(js: seq<Journal>): (n: nat)
    ensures forall j :: j in js && j.key.TextKey? ==> |j.key.text| <= n
    ensures forall j :: j in js && j.ref.Posted? ==> |j.ref.id| <= n
  {
    if js == [] then 0
    else
      var rest, j := Longest(js[..|js| - 1]), js[|js| - 1];
      rest + (if j.key.TextKey? then |j.key.text| else 0) + (if j.ref.Posted? then |j.ref.id| else 0)
  }

  function Filler(n: nat): (text: string)
    ensures |text| == n
  {
    seq(n, i => 'x')
  }

  /** A two-line journal that debits and credits one account of the book. */
  function WashLines(account: string): seq<Line> {
    [Line(1, account, "wash", 1, 0), Line(2, account, "wash", 0, 1)]
  }

  function Wash(s: State, book: string, q: nat, account: string): Command
    requires q < |s.periods|
  {
    var unused := Filler(Longest(s.journals) + 1);
    Adjust(TextKey(unused), "", unused, book, s.periods[q].code, s.periods[q].start, WashLines(account))
  }

  lemma WashBalances(account: string)
    ensures Balanced(WashLines(account))
  {
    var a, b := Line(1, account, "wash", 1, 0), Line(2, account, "wash", 0, 1);
    assert [a, b][..1] == [a] && [a][..0] == [];
    assert Sum([a], NetIn(Every())) == -1;
  }

  lemma WashIsSound(chart: Chart, account: string)
    requires Listed(chart, account)
    ensures SoundLines(chart, WashLines(account))
  {
    WashBalances(account);
  }

  lemma WashAccepted(s: State, book: string, q: nat, account: string)
    requires PeriodsOk(s) && book in s.charts && q < |s.periods| && !Shut(s, book, q)
    requires Listed(s.charts[book], account) && SomeRoleMapped(s.charts[book])
    ensures var c := Wash(s, book, q, account);
            AdjustStep(s, c).reply.Accepted? &&
            AdjustStep(s, c).state == Inserted(s,
              Journal(Ref.Posted(c.id), book, q, c.date, WashLines(account), c.key, Payload(""), true))
  {
    var c := Wash(s, book, q, account);
    WashIsSound(s.charts[book], account);
    assert PeriodAdmits(s, c, q);
    AdjustedExactlyWhen(s, c);
    assert FindPeriod(s.periods, c.code) == Some(q);
  }

  lemma JournalBehindGoesStale(s: State, book: string, p: nat, j: Journal)
    requires JustClosed(s, book, p) && j.book == book && SoundLines(s.charts[book], j.lines)
    requires j.period < |s.periods| && s.periods[j.period].start < s.periods[p].start
    requires Covers(s.periods[j.period], j.date)
    ensures !Fresh(Inserted(s, j), book, p)
  {
    var sel := Through(book, s.periods[p].end);
    JournalsOnChart(s, book, sel);
    forall k, l | k in s.journals + [j] && sel(k) && l in k.lines ensures Listed(s.charts[book], l.account) {
      assert k in s.journals || k == j;
    }
    assert Disjoint(s.periods[j.period], s.periods[p]);
    StaysFreshExactlyWhen(s, j, book, p);
  }

  lemma WashBehindGoesStale(s: State, book: string, p: nat, q: nat, account: string)
    requires JustClosed(s, book, p) && q < |s.periods| && !Shut(s, book, q)
    requires s.periods[q].start < s.periods[p].start
    requires Listed(s.charts[book], account) && SomeRoleMapped(s.charts[book])
    ensures !StillFresh(AdjustStep(s, Wash(s, book, q, account)).state, book, p)
  {
    var c := Wash(s, book, q, account);
    WashAccepted(s, book, q, account);
    WashIsSound(s.charts[book], account);
    JournalBehindGoesStale(s, book, p,
      Journal(Ref.Posted(c.id), book, q, c.date, WashLines(account), c.key, Payload(""), true));
  }

  lemma OneCommandRun(s: State, c: Command)
    requires !c.OpenPeriod?
    ensures OpeningsInOrder(s, [c]) && Run(s, [c]) == Step(s, c).state
  {
    assert [c][..0] == [];
  }

  lemma LastsWhenEarlierShut(s: State, book: string, p: nat)
    requires JustClosed(s, book, p) && EarlierShut(s, book, p)
    ensures Lasts(s, book, p)
  {
    forall later: seq<Command> | OpeningsInOrder(s, later) ensures StillFresh(Run(s, later), book, p) {
      RunKeepsGuarded(s, later, book, p);
    }
  }

  lemma EndsWhenEarlierIsWritable(s: State, book: string, p: nat, q: nat)
    requires JustClosed(s, book, p) && SomeRoleMapped(s.charts[book])
    requires q < |s.periods| && s.periods[q].start < s.periods[p].start && !Shut(s, book, q)
    ensures !Lasts(s, book, p)
  {
    var account := s.charts[book][0].code;
    CodeListed(s.charts[book], account);
    WashBehindGoesStale(s, book, p, q, account);
    OneCommandRun(s, Wash(s, book, q, account));
  }

  /** A snapshot that agrees with the ledger keeps agreeing over every run exactly when
      every earlier period of its book is shut: hard-closed, or soft-closed where the
      closing writer does not log in. */
  lemma LastsExactlyWhenEarlierShut(s: State, book: string, p: nat)
    requires JustClosed(s, book, p) && SomeRoleMapped(s.charts[book])
    ensures EarlierShut(s, book, p) <==> Lasts(s, book, p)
  {
    if EarlierShut(s, book, p) {
      LastsWhenEarlierShut(s, book, p);
    } else {
      var q :| 0 <= q < |s.periods| && s.periods[q].start < s.periods[p].start && !Shut(s, book, q);
      EndsWhenEarlierIsWritable(s, book, p, q);
    }
  }

  // --------------------------------------------------------- after a hard close

  lemma FrozenPeriods(posted: State, book: string, p: nat, key: Key)
    requires book in posted.charts && p < |posted.periods| && (book, p) in posted.controls
    ensures var t := Frozen(posted, book, p, key);
            StillFresh(t, book, p) && Effective(t, book, p) == HardClosed
  {
  }

  lemma FrozenEarlierShut(posted: State, book: string, p: nat, key: Key)
    requires book in posted.charts && p < |posted.periods| && (book, p) in posted.controls
    ensures EarlierShut(Frozen(posted, book, p, key), book, p) == EarlierShut(posted, book, p)
  {
    var t := Frozen(posted, book, p, key);
    forall q | 0 <= q < |posted.periods| && q != p
      ensures t.periods[q] == posted.periods[q] && Shut(t, book, q) == Shut(posted, book, q)
    {
      assert Effective(t, book, q) == Effective(posted, book, q);
    }
    assert t.periods[p].start == posted.periods[p].start;
  }

  lemma EarlierShutUnmoved(s: State, posted: State, book: string, p: nat)
    requires p < |s.periods| && book in s.charts
    requires posted == Materialized(s, p).(journals := posted.journals)
    ensures EarlierShut(posted, book, p) == EarlierShut(s, book, p)
  {
    forall q | 0 <= q < |s.periods| ensures Shut(posted, book, q) == Shut(s, book, q) {
      assert Effective(posted, book, q) == Effective(s, book, q);
    }
  }

  lemma JustFrozen(s: State, posted: State, book: string, p: nat, key: Key)
    requires p < |s.periods| && book in s.charts && (book, p) in posted.controls
    requires posted == Materialized(s, p).(journals := posted.journals)
    ensures var t := Frozen(posted, book, p, key);
            && StillFresh(t, book, p) && Effective(t, book, p) == HardClosed
            && EarlierShut(t, book, p) == EarlierShut(s, book, p)
  {
    FrozenPeriods(posted, book, p, key);
    FrozenEarlierShut(posted, book, p, key);
    EarlierShutUnmoved(s, posted, book, p);
  }

  lemma CloseLeavesJustClosed(s: State, c: Command, p: nat)
    requires Consistent(s) && c.Close? && c.status == HardClosed && FindPeriod(s.periods, c.code) == Some(p)
    requires FirstClose(CloseStep(s, c))
    ensures var t := CloseStep(s, c).state;
            JustClosed(t, c.book, p) && EarlierShut(t, c.book, p) == EarlierShut(s, c.book, p)
  {
    CloseKeepsConsistent(s, c);
    HardCloseFreezes(s, c, p);
    var locked := Materialized(s, p);
    ClosingOnlyAppends(locked, c.book, p);
    JustFrozen(s, WithClosingJournal(locked, c.book, p).state, c.book, p, c.key);
  }

  /** The code does not check the order of hard closes. In every store that tidy
      commands reach, whatever closes it has accepted, what a further hard close stores
      keeps agreeing with the ledger, over every later run, exactly when every earlier
      period of the book was shut at the time. */
  lemma HardCloseLastsExactlyWhenEarlierShut(s: State, c: Command, p: nat)
    requires Consistent(s) && c.Close? && c.status == HardClosed && FindPeriod(s.periods, c.code) == Some(p)
    requires FirstClose(CloseStep(s, c))
    requires c.book in s.charts && SomeRoleMapped(s.charts[c.book])
    ensures var t := CloseStep(s, c).state;
            && StillFresh(t, c.book, p)
            && (EarlierShut(s, c.book, p) <==> Lasts(t, c.book, p))
  {
    CloseLeavesJustClosed(s, c, p);
    CloseOnlyAppends(s, c);
    LastsExactlyWhenEarlierShut(CloseStep(s, c).state, c.book, p);
  }

  /** The same over whole runs from the empty store, with closes in any order. */
  lemma CloseAfterAnyRunLastsExactlyWhen(closingWriter: bool, commands: seq<Command>, c: Command, p: nat)
    requires TidyRun(EmptyState(closingWriter), commands)
    requires var s := Run(EmptyState(closingWriter), commands);
             && c.Close? && c.status == HardClosed && FindPeriod(s.periods, c.code) == Some(p)
             && FirstClose(CloseStep(s, c)) && c.book in s.charts && SomeRoleMapped(s.charts[c.book])
    ensures var s := Run(EmptyState(closingWriter), commands);
            EarlierShut(s, c.book, p) <==> Lasts(CloseStep(s, c).state, c.book, p)
  {
    RunKeepsConsistent(closingWriter, commands);
    HardCloseLastsExactlyWhenEarlierShut(Run(EmptyState(closingWriter), commands), c, p);
  }

  // ---------------------------------------------- without the order of openings

  lemma {:induction false} LongerThanAll(keys: set<string>) returns (n: nat)
    ensures forall k :: k in keys ==> |k| <= n
  {
    if keys == {} {
      n := 0;
    } else {
      var k :| k in keys;
      var rest := LongerThanAll(keys - {k});
      n := rest + |k|;
    }
  }

  lemma {:induction false} BeforeAll(ps: seq<Period>) returns (day: Date, code: int)
    ensures forall p :: 0 <= p < |ps| ==> day < ps[p].start && code > ps[p].code
  {
    if ps == [] {
      day, code := 0, 0;
    } else {
      var n := |ps| - 1;
      day, code := BeforeAll(ps[..n]);
      day := if day < ps[n].start then day else ps[n].start - 1;
      code := if code > ps[n].code then code else ps[n].code + 1;
    }
  }

  /** A period of one day before all others, under a key of its own. */
  lemma SomeEarlierOpening(s: State) returns (c: Command)
    ensures c.OpenPeriod? && MayBeOpened(s, c) && Tidy(s, c)
    ensures c.start == c.end && forall p :: 0 <= p < |s.periods| ==> c.start.value < s.periods[p].start
  {
    var day, code := BeforeAll(s.periods);
    var n := LongerThanAll(s.openings.Keys);
    c := OpenPeriod("", code, Some(day), Some(day), Filler(n + 1), "");
  }

  lemma OpeningKeepsFresh(s: State, c: Command, book: string, p: nat)
    requires JustClosed(s, book, p) && c.OpenPeriod? && MayBeOpened(s, c) && Tidy(s, c)
    ensures var t := OpenStep(s, c).state;
            && JustClosed(t, book, p) && t.charts == s.charts
            && t.periods == s.periods + [Period(c.code, c.start.value, c.end.value, Open)]
            && !Shut(t, book, |s.periods|)
  {
    OpeningOnlyOpens(s, c);
    OpeningKeepsConsistent(s, c);
    assert (book, |s.periods|) !in s.controls;
  }

  lemma OpeningThenAdjustment(s: State, c: Command, d: Command)
    requires c.OpenPeriod? && d.Adjust? && Tidy(s, c)
    ensures TidyRun(s, [c, d]) && Run(s, [c, d]) == AdjustStep(OpenStep(s, c).state, d).state
  {
    assert [c, d][..1] == [c] && [c][..0] == [];
    assert Run(s, [c]) == Step(s, c).state && TidyRun(s, [c]);
  }

  lemma OpeningThenStale(s: State, c: Command, book: string, p: nat, account: string)
    requires JustClosed(s, book, p) && Listed(s.charts[book], account) && SomeRoleMapped(s.charts[book])
    requires c.OpenPeriod? && MayBeOpened(s, c) && Tidy(s, c) && c.start.value < s.periods[p].start
    ensures var t := OpenStep(s, c).state;
            && |s.periods| < |t.periods|
            && !StillFresh(AdjustStep(t, Wash(t, book, |s.periods|, account)).state, book, p)
  {
    OpeningKeepsFresh(s, c, book, p);
    WashBehindGoesStale(OpenStep(s, c).state, book, p, |s.periods|, account);
  }

  /** The code does not check the order of openings either. If new periods need only be
      disjoint from the others, no snapshot of a book with a mapped role lasts: a period
      opened before all others takes an adjustment behind it. */
  lemma NoneLastsWithoutOrder(s: State, book: string, p: nat)
    requires JustClosed(s, book, p) && SomeRoleMapped(s.charts[book])
    ensures exists later: seq<Command> :: TidyRun(s, later) && !StillFresh(Run(s, later), book, p)
  {
    var c := SomeEarlierOpening(s);
    var account := s.charts[book][0].code;
    CodeListed(s.charts[book], account);
    OpeningThenStale(s, c, book, p, account);
    var d := Wash(OpenStep(s, c).state, book, |s.periods|, account);
    OpeningThenAdjustment(s, c, d);
  }
}
