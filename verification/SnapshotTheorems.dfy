/** Snapshots over whole runs: they are never rewritten and never go stale. */
module SnapshotTheorems {
  import opened Sums
  import opened JournalTables
  import opened BookStore
  import opened CloseInvariant

  /** A snapshot never goes stale: after any orderly run, every stored snapshot
      equals the live trial balance through its period end, counts the journals
      behind it, and its period is hard-closed for its book. */
  lemma SnapshotsNeverGoStale(closingWriter: bool, commands: seq<Command>)
    requires OrderlyRun(EmptyState(closingWriter), commands)
    ensures var s := Run(EmptyState(closingWriter), commands);
            forall book, p :: (book, p) in s.snapshots ==>
              && book in s.charts && p < |s.periods| && Effective(s, book, p) == HardClosed
              && s.snapshots[(book, p)].rows == Rows(s.charts[book], s.journals, Through(book, s.periods[p].end))
              && s.snapshots[(book, p)].count == |DatedBy(s.journals, book, s.periods[p].end)|
  {
    RunKeepsInv(closingWriter, commands);
    var s := Run(EmptyState(closingWriter), commands);
    forall book, p | (book, p) in s.snapshots ensures SnapshotOk(s, book, p) {
      assert Keeps(SnapshotsPart, s);
    }
    forall book, p | (book, p) in s.snapshots
      ensures s.snapshots[(book, p)].count == |DatedBy(s.journals, book, s.periods[p].end)|
    {
      assert SnapshotOk(s, book, p);
      CountIsSize(s.journals, book, s.periods[p].end);
    }
  }

  predicate OnlyAppended(s: State, t: State) {
    && s.journals <= t.journals && t.charts == s.charts
    && (forall k :: k in s.snapshots ==> k in t.snapshots && t.snapshots[k] == s.snapshots[k])
  }

  lemma PlainOnlyAppends(s: State, c: Command)
    requires c.Post? || c.Adjust? || c.OpenPeriod?
    ensures OnlyAppended(s, Step(s, c).state)
  {
  }

  lemma ReverseOnlyAppends(s: State, c: Command)
    requires c.Reverse?
    ensures OnlyAppended(s, ReverseStep(s, c).state)
  {
  }

  lemma RegisterOnlyAppends(s: State, c: Command)
    requires c.RegisterBook?
    ensures var t := RegisterStep(s, c).state;
            && t == s.(charts := t.charts)
            && forall book :: book in s.charts ==> book in t.charts && t.charts[book] == s.charts[book]
  {
  }

  lemma ClosingOnlyAppends(s: State, book: string, p: nat)
    requires book in s.charts && p < |s.periods|
    ensures OnlyAppended(s, WithClosingJournal(s, book, p).state)
    ensures WithClosingJournal(s, book, p).state == s.(journals := WithClosingJournal(s, book, p).state.journals)
  {
  }

  lemma FrozenOnlyAppends(s: State, book: string, p: nat, key: Key)
    requires book in s.charts && p < |s.periods| && (book, p) in s.controls && (book, p) !in s.snapshots
    ensures OnlyAppended(s, Frozen(s, book, p, key))
  {
  }

  lemma PersistCloseOnlyAppends(s: State, book: string, p: nat, key: Key)
    requires book in s.charts && p < |s.periods| && (book, p) in s.controls
    ensures OnlyAppended(s, PersistClose(s, book, p, key).state)
  {
    ClosingOnlyAppends(s, book, p);
    PersistCloseCases(s, book, p, key);
    var posted := WithClosingJournal(s, book, p).state;
    if (book, p) in posted.controls && (book, p) !in posted.snapshots {
      FrozenOnlyAppends(posted, book, p, key);
    }
  }

  lemma SoftCloseOnlyAppends(s: State, book: string, p: nat, key: Key)
    requires p < |s.periods|
    ensures OnlyAppended(s, PersistSoftClose(s, book, p, key).state)
  {
  }

  lemma CloseLockedOnlyAppends(s: State, p: nat, c: Command)
    requires c.Close? && c.status != Open && c.book in s.charts && p < |s.periods| && (c.book, p) in s.controls
    ensures OnlyAppended(s, CloseLocked(s, p, c).state)
  {
    CloseLockedCases(s, p, c);
    PersistCloseOnlyAppends(s, c.book, p, c.key);
    SoftCloseOnlyAppends(s, c.book, p, c.key);
  }

  lemma CloseOnlyAppends(s: State, c: Command)
    requires c.Close?
    ensures OnlyAppended(s, CloseStep(s, c).state)
  {
    var found := FindPeriod(s.periods, c.code);
    if c.status != Open && c.book in s.charts && found.Some? {
      CloseLockedOnlyAppends(Materialized(s, found.value), found.value, c);
    }
  }

  /** No command, in order or not, removes or rewrites a snapshot, a journal or
      a chart. */
  lemma StepOnlyAppends(s: State, c: Command)
    ensures var t := Step(s, c).state;
            && s.journals <= t.journals
            && (forall k :: k in s.snapshots ==> k in t.snapshots && t.snapshots[k] == s.snapshots[k])
            && (forall book :: book in s.charts ==> book in t.charts && t.charts[book] == s.charts[book])
  {
    if c.Close? {
      CloseOnlyAppends(s, c);
    } else if c.Reverse? {
      ReverseOnlyAppends(s, c);
    } else if c.RegisterBook? {
      RegisterOnlyAppends(s, c);
    } else {
      PlainOnlyAppends(s, c);
    }
  }

  lemma {:induction false} RunOnlyAppends(s: State, commands: seq<Command>)
    ensures var t := Run(s, commands);
            && s.journals <= t.journals
            && (forall k :: k in s.snapshots ==> k in t.snapshots && t.snapshots[k] == s.snapshots[k])
  {
    if commands != [] {
      RunOnlyAppends(s, commands[..|commands| - 1]);
      StepOnlyAppends(Run(s, commands[..|commands| - 1]), commands[|commands| - 1]);
    }
  }

  /** The live trial balance of any book balances on any date, so the close
      binder is never refused as unbalanced. */
  lemma TrialBalanceAlwaysBalances(s: State, book: string, date: Date)
    requires SoundLedger(s) && book in s.charts
    ensures RowsBalance(TrialBalance(s, book, date))
  {
    var sel := Through(book, date);
    LedgerOf(s);
    JournalsOnChart(s, book, sel);
    var rows := TrialBalance(s, book, date);
    GroupedTotal(s.charts[book], s.journals, sel, Dr, Every());
    GroupedTotal(s.charts[book], s.journals, sel, Cr, Every());
    SumSame(rows, RowDebit(), RowIn(Dr, Every()));
    SumSame(rows, RowCredit(), RowIn(Cr, Every()));
    NetIsCreditLessDebit(s.journals, sel, Every());
    forall j | j in s.journals ensures Picked(sel, NetIn(Every()))(j) == 0 {
      assert JournalOk(s, j);
    }
    SumNil(s.journals, Picked(sel, NetIn(Every())));
  }

  /** One more journal leaves a fresh snapshot fresh exactly when it belongs to
      another book or is dated after the snapshot's period. */
  lemma StaysFreshExactlyWhen(s: State, j: Journal, book: string, p: nat)
    requires book in s.charts && p < |s.periods| && (book, p) in s.snapshots && Fresh(s, book, p)
    requires DistinctCodes(s.charts[book]) && OnChart(s.charts[book], s.journals + [j], Through(book, s.periods[p].end))
    requires j.lines != [] && AllOneSided(j.lines)
    ensures Fresh(Inserted(s, j), book, p) <==> j.book != book || j.date > s.periods[p].end
  {
    var sel := Through(book, s.periods[p].end);
    if sel(j) {
      RowsNoticeSelected(s.charts[book], s.journals, j, sel);
    } else {
      RowsIgnoreUnselected(s.charts[book], s.journals, j, sel);
    }
  }
}
