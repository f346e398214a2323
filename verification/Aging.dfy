/** First-in first-out aging of one account, and its closed forms. */
module Aging {

  type Date = int

  /** One journal line of the aged account, in query order. */
  datatype AgingRow = AgingRow(date: Date, debit: nat, credit: nat)

  datatype OpenItem = OpenItem(date: Date, amount: nat)

  predicate OneSidedRow(r: AgingRow) {
    (r.debit > 0) != (r.credit > 0)
  }

  predicate OneSidedRows(rows: seq<AgingRow>) {
    forall r :: r in rows ==> OneSidedRow(r)
  }

  function Increase(r: AgingRow, increaseIsDebit: bool): nat {
    if increaseIsDebit then r.debit else r.credit
  }

  function Decrease(r: AgingRow, increaseIsDebit: bool): nat {
    if increaseIsDebit then r.credit else r.debit
  }

  function Min(a: int, b: int): int {
    if a <= b then a else b
  }

  // -------------------------------------------------------------- the procedure

  /** Take a decrease from the items, oldest first; items may drop to zero. */
  function Applied(items: seq<OpenItem>, decrease: nat): (after: seq<OpenItem>)
    ensures |after| == |items|
  {
    if items == [] then []
    else
      var taken := if items[0].amount <= decrease then items[0].amount else decrease;
      [OpenItem(items[0].date, items[0].amount - taken)] + Applied(items[1..], decrease - taken)
  }

  function Positive(items: seq<OpenItem>): seq<OpenItem> {
    if items == [] then []
    else (if items[0].amount > 0 then [items[0]] else []) + Positive(items[1..])
  }

  /** The open items after all rows. */
  function OpenItems(rows: seq<AgingRow>, increaseIsDebit: bool): seq<OpenItem> {
    if rows == [] then []
    else
      var before, r := OpenItems(rows[..|rows| - 1], increaseIsDebit), rows[|rows| - 1];
      if Increase(r, increaseIsDebit) > 0 then before + [OpenItem(r.date, Increase(r, increaseIsDebit))]
      else Positive(Applied(before, Decrease(r, increaseIsDebit)))
  }

  /** What is left of a decrease after the first n items have taken their share. */
  function Unapplied(items: seq<OpenItem>, decrease: nat, n: nat): (left: nat)
    requires n <= |items|
    ensures left <= decrease
  {
    if n == 0 then decrease
    else
      var left := Unapplied(items, decrease, n - 1);
      if items[n - 1].amount <= left then left - items[n - 1].amount else 0
  }

  lemma {:induction false} UnappliedTail(items: seq<OpenItem>, decrease: nat, n: nat)
    requires 0 < n <= |items|
    ensures var taken := if items[0].amount <= decrease then items[0].amount else decrease;
            Unapplied(items, decrease, n) == Unapplied(items[1..], decrease - taken, n - 1)
  {
    if n > 1 {
      UnappliedTail(items, decrease, n - 1);
    } else {
      assert Unapplied(items, decrease, 0) == decrease;
    }
  }

  lemma {:induction false} AppliedAt(items: seq<OpenItem>, decrease: nat, n: nat)
    requires n < |items|
    ensures var left := Unapplied(items, decrease, n);
            Applied(items, decrease)[n] ==
            OpenItem(items[n].date, items[n].amount - if items[n].amount <= left then items[n].amount else left)
  {
    if n > 0 {
      var taken := if items[0].amount <= decrease then items[0].amount else decrease;
      AppliedAt(items[1..], decrease - taken, n - 1);
      UnappliedTail(items, decrease, n);
    }
  }

  lemma {:induction false} PositiveAppend(items: seq<OpenItem>, item: OpenItem)
    ensures Positive(items + [item]) == Positive(items) + if item.amount > 0 then [item] else []
  {
    if items == [] {
      assert [] + [item] == [item];
      assert [item][1..] == [];
    } else {
      var more := items + [item];
      assert more[0] == items[0] && more[1..] == items[1..] + [item];
      PositiveAppend(items[1..], item);
    }
  }

  /** The inner loop: spread one decrease over the items in place. */
  method SpreadDecrease(items: seq<OpenItem>, decrease: nat) returns (after: seq<OpenItem>)
    ensures after == Applied(items, decrease)
  {
    after := items;
    var remaining := decrease;
    for i := 0 to |after|
      invariant |after| == |items|
      invariant remaining == Unapplied(items, decrease, i)
      invariant after[..i] == Applied(items, decrease)[..i]
      invariant after[i..] == items[i..]
    {
      AppliedAt(items, decrease, i);
      assert after[i] == items[i];
      var taken := if after[i].amount <= remaining then after[i].amount else remaining;
      after := after[i := OpenItem(after[i].date, after[i].amount - taken)];
      remaining := remaining - taken;
    }
  }

  /** Keep the items that still have something open. */
  method DropSpent(items: seq<OpenItem>) returns (kept: seq<OpenItem>)
    ensures kept == Positive(items)
  {
    kept := [];
    for i := 0 to |items|
      invariant kept == Positive(items[..i])
    {
      assert items[..i + 1] == items[..i] + [items[i]];
      PositiveAppend(items[..i], items[i]);
      if items[i].amount > 0 {
        kept := kept + [items[i]];
      }
    }
    assert items[..|items|] == items;
  }

  method FifoAgingOpenItems(rows: seq<AgingRow>, increaseIsDebit: bool) returns (openItems: seq<OpenItem>)
    ensures openItems == OpenItems(rows, increaseIsDebit)
  {
    openItems := [];
    for k := 0 to |rows|
      invariant openItems == OpenItems(rows[..k], increaseIsDebit)
    {
      assert rows[..k + 1][..k] == rows[..k];
      var increase := Increase(rows[k], increaseIsDebit);
      if increase > 0 {
        openItems := openItems + [OpenItem(rows[k].date, increase)];
        continue;
      }
      openItems := SpreadDecrease(openItems, Decrease(rows[k], increaseIsDebit));
      openItems := DropSpent(openItems);
    }
    assert rows[..|rows|] == rows;
  }

  // ------------------------------------------------------- totals and cutoffs

  function Total(items: seq<OpenItem>): nat {
    if items == [] then 0 else items[0].amount + Total(items[1..])
  }

  /** The open amount dated on or after c. */
  function Since(items: seq<OpenItem>, c: Date): nat {
    if items == [] then 0 else (if items[0].date >= c then items[0].amount else 0) + Since(items[1..], c)
  }

  /** All increases dated on or after c. */
  function IncreasesSince(rows: seq<AgingRow>, increaseIsDebit: bool, c: Date): nat {
    if rows == [] then 0
    else
      var r := rows[|rows| - 1];
      IncreasesSince(rows[..|rows| - 1], increaseIsDebit, c) +
      if r.date >= c then Increase(r, increaseIsDebit) else 0
  }

  predicate DatedInOrder(items: seq<OpenItem>) {
    forall i, j :: 0 <= i < j < |items| ==> items[i].date <= items[j].date
  }

  predicate RowsInOrder(rows: seq<AgingRow>) {
    forall i, j :: 0 <= i < j < |rows| ==> rows[i].date <= rows[j].date
  }

  lemma {:induction false} SumsAppend(items: seq<OpenItem>, item: OpenItem, c: Date)
    ensures Total(items + [item]) == Total(items) + item.amount
    ensures Since(items + [item], c) == Since(items, c) + if item.date >= c then item.amount else 0
  {
    if items == [] {
      assert [] + [item] == [item] && [item][1..] == [];
    } else {
      assert (items + [item])[1..] == items[1..] + [item];
      SumsAppend(items[1..], item, c);
    }
  }

  lemma PositiveUnfolds(items: seq<OpenItem>)
    requires items != []
    ensures Positive(items) ==
            if items[0].amount > 0 then [items[0]] + Positive(items[1..]) else Positive(items[1..])
  {
  }

  lemma {:induction false} PositiveKeeps(items: seq<OpenItem>, c: Date)
    ensures Total(Positive(items)) == Total(items) && Since(Positive(items), c) == Since(items, c)
    ensures forall o :: o in Positive(items) ==> o in items
  {
    if items != [] {
      PositiveUnfolds(items);
      PositiveKeeps(items[1..], c);
      assert ([items[0]] + Positive(items[1..]))[1..] == Positive(items[1..]);
      assert forall o :: o in items[1..] ==> o in items;
    }
  }

  lemma {:induction false} PositiveInOrder(items: seq<OpenItem>)
    requires DatedInOrder(items)
    ensures DatedInOrder(Positive(items))
  {
    if items != [] {
      PositiveUnfolds(items);
      PositiveInOrder(items[1..]);
      PositiveKeeps(items[1..], 0);
      forall o | o in items[1..] ensures items[0].date <= o.date {
      }
    }
  }

  lemma AppliedInOrder(items: seq<OpenItem>, decrease: nat)
    requires DatedInOrder(items)
    ensures DatedInOrder(Applied(items, decrease))
  {
    forall i | 0 <= i < |items| ensures Applied(items, decrease)[i].date == items[i].date {
      AppliedAt(items, decrease, i);
    }
  }

  lemma {:induction false} SinceIsPart(items: seq<OpenItem>, c: Date)
    ensures Since(items, c) <= Total(items)
  {
    if items != [] {
      SinceIsPart(items[1..], c);
    }
  }

  lemma LaterItems(items: seq<OpenItem>, c: Date)
    requires DatedInOrder(items) && items != [] && items[0].date >= c
    ensures forall o :: o in items[1..] ==> o.date >= c
  {
    forall o | o in items[1..] ensures o.date >= c {
      var i :| 0 <= i < |items| - 1 && items[1..][i] == o;
      assert items[0].date <= items[i + 1].date;
    }
  }

  lemma {:induction false} AllSince(items: seq<OpenItem>, c: Date)
    requires forall o :: o in items ==> o.date >= c
    ensures Since(items, c) == Total(items)
  {
    if items != [] {
      assert items[0] in items;
      assert forall o :: o in items[1..] ==> o in items;
      AllSince(items[1..], c);
    }
  }

  function Left(total: nat, decrease: nat): nat {
    if total <= decrease then 0 else total - decrease
  }

  lemma {:induction false} AppliedTotalOnly(items: seq<OpenItem>, decrease: nat)
    ensures Total(Applied(items, decrease)) == Left(Total(items), decrease)
  {
    if items != [] {
      var taken := if items[0].amount <= decrease then items[0].amount else decrease;
      AppliedTotalOnly(items[1..], decrease - taken);
    }
  }

  lemma {:induction false} AppliedSince(items: seq<OpenItem>, decrease: nat, c: Date)
    requires DatedInOrder(items)
    ensures Since(Applied(items, decrease), c) == Min(Since(items, c), Left(Total(items), decrease))
  {
    if items != [] {
      var rest := items[1..];
      var taken := if items[0].amount <= decrease then items[0].amount else decrease;
      AppliedSince(rest, decrease - taken, c);
      assert Applied(items, decrease)[1..] == Applied(rest, decrease - taken);
      SinceIsPart(rest, c);
      if items[0].date >= c {
        LaterItems(items, c);
        AllSince(rest, c);
      }
    }
  }

  /** A decrease leaves the total floored at zero, and the recent amount is cut
      only once everything older is used up. */
  lemma AppliedSums(items: seq<OpenItem>, decrease: nat, c: Date)
    requires DatedInOrder(items)
    ensures Total(Applied(items, decrease)) == Left(Total(items), decrease)
    ensures Since(Applied(items, decrease), c) == Min(Since(items, c), Left(Total(items), decrease))
  {
    AppliedTotalOnly(items, decrease);
    AppliedSince(items, decrease, c);
  }

  lemma {:induction false} NoneSince(rows: seq<AgingRow>, increaseIsDebit: bool, c: Date)
    requires forall r :: r in rows ==> r.date < c
    ensures IncreasesSince(rows, increaseIsDebit, c) == 0
  {
    if rows != [] {
      assert forall r :: r in rows[..|rows| - 1] ==> r in rows;
      NoneSince(rows[..|rows| - 1], increaseIsDebit, c);
    }
  }

  /** An item that a row leaves open was open before, on the same date. */
  lemma OlderItemIsDated(before: seq<OpenItem>, r: AgingRow, increaseIsDebit: bool, o: OpenItem)
    requires if Increase(r, increaseIsDebit) > 0 then o in before
             else o in Positive(Applied(before, Decrease(r, increaseIsDebit)))
    ensures exists item :: item in before && item.date == o.date
  {
    if Increase(r, increaseIsDebit) <= 0 {
      var decrease := Decrease(r, increaseIsDebit);
      PositiveKeeps(Applied(before, decrease), 0);
      var i :| 0 <= i < |before| && Applied(before, decrease)[i] == o;
      AppliedAt(before, decrease, i);
      assert before[i] in before;
    }
  }

  /** Every open item stands for some increase, so it carries a row's date. */
  lemma {:induction false} ItemsAreDated(rows: seq<AgingRow>, increaseIsDebit: bool)
    ensures forall o :: o in OpenItems(rows, increaseIsDebit) ==> exists r :: r in rows && r.date == o.date
  {
    if rows != [] {
      var init, r := rows[..|rows| - 1], rows[|rows| - 1];
      ItemsAreDated(init, increaseIsDebit);
      assert rows == init + [r];
      forall o | o in OpenItems(rows, increaseIsDebit) ensures exists q :: q in rows && q.date == o.date {
        if Increase(r, increaseIsDebit) > 0 && o == OpenItem(r.date, Increase(r, increaseIsDebit)) {
          assert r in rows;
        } else {
          OlderItemIsDated(OpenItems(init, increaseIsDebit), r, increaseIsDebit, o);
          var before :| before in OpenItems(init, increaseIsDebit) && before.date == o.date;
          var q :| q in init && q.date == before.date;
          assert q in rows;
        }
      }
    }
  }

  lemma NewestIsLast(rows: seq<AgingRow>, increaseIsDebit: bool)
    requires RowsInOrder(rows) && rows != []
    ensures forall o :: o in OpenItems(rows[..|rows| - 1], increaseIsDebit) ==> o.date <= rows[|rows| - 1].date
  {
    var init := rows[..|rows| - 1];
    ItemsAreDated(init, increaseIsDebit);
    forall o | o in OpenItems(init, increaseIsDebit) ensures o.date <= rows[|rows| - 1].date {
      var q :| q in init && q.date == o.date;
      var i :| 0 <= i < |rows| - 1 && rows[i] == q;
      assert rows[i].date <= rows[|rows| - 1].date;
    }
  }

  lemma {:induction false} ItemsInOrder(rows: seq<AgingRow>, increaseIsDebit: bool)
    requires RowsInOrder(rows)
    ensures DatedInOrder(OpenItems(rows, increaseIsDebit))
  {
    if rows != [] {
      var init, r := rows[..|rows| - 1], rows[|rows| - 1];
      ItemsInOrder(init, increaseIsDebit);
      var before := OpenItems(init, increaseIsDebit);
      if Increase(r, increaseIsDebit) > 0 {
        NewestIsLast(rows, increaseIsDebit);
      } else {
        AppliedInOrder(before, Decrease(r, increaseIsDebit));
        PositiveInOrder(Applied(before, Decrease(r, increaseIsDebit)));
      }
    }
  }

  lemma EarlierRows(rows: seq<AgingRow>, c: Date)
    requires RowsInOrder(rows) && rows != [] && rows[|rows| - 1].date < c
    ensures forall q :: q in rows[..|rows| - 1] ==> q.date < c
  {
    forall q | q in rows[..|rows| - 1] ensures q.date < c {
      var i :| 0 <= i < |rows| - 1 && rows[i] == q;
      assert rows[i].date <= rows[|rows| - 1].date;
    }
  }

  lemma DecreaseStep(before: seq<OpenItem>, decrease: nat, c: Date)
    requires DatedInOrder(before)
    ensures var after := Positive(Applied(before, decrease));
            && Total(after) == Left(Total(before), decrease)
            && Since(after, c) == Min(Since(before, c), Total(after))
  {
    AppliedSums(before, decrease, c);
    PositiveKeeps(Applied(before, decrease), c);
  }

  lemma LastRowSince(rows: seq<AgingRow>, increaseIsDebit: bool, c: Date)
    requires rows != [] && OneSidedRow(rows[|rows| - 1]) && RowsInOrder(rows)
    requires var init := rows[..|rows| - 1];
             var before := OpenItems(init, increaseIsDebit);
             DatedInOrder(before) && Since(before, c) == Min(Total(before), IncreasesSince(init, increaseIsDebit, c))
    ensures var items := OpenItems(rows, increaseIsDebit);
            Since(items, c) == Min(Total(items), IncreasesSince(rows, increaseIsDebit, c))
  {
    var init, r := rows[..|rows| - 1], rows[|rows| - 1];
    var before, increase := OpenItems(init, increaseIsDebit), Increase(r, increaseIsDebit);
    if increase > 0 {
      SumsAppend(before, OpenItem(r.date, increase), c);
      SinceIsPart(before, c);
      if r.date < c {
        EarlierRows(rows, c);
        NoneSince(init, increaseIsDebit, c);
      }
    } else {
      DecreaseStep(before, Decrease(r, increaseIsDebit), c);
    }
  }

  /** FIFO by cutoff: for rows in date order, what is open since any date is the
      whole open total or all the increases since that date, whichever is less. */
  lemma {:induction false} OpenSince(rows: seq<AgingRow>, increaseIsDebit: bool, c: Date)
    requires OneSidedRows(rows) && RowsInOrder(rows)
    ensures var items := OpenItems(rows, increaseIsDebit);
            Since(items, c) == Min(Total(items), IncreasesSince(rows, increaseIsDebit, c))
  {
    if rows != [] {
      var init, r := rows[..|rows| - 1], rows[|rows| - 1];
      assert r in rows && forall q :: q in init ==> q in rows;
      OpenSince(init, increaseIsDebit, c);
      ItemsInOrder(init, increaseIsDebit);
      LastRowSince(rows, increaseIsDebit, c);
    }
  }

  // -------------------------------------------------- the reflected balance

  /** The account's net after the first n rows. */
  function NetAfter(rows: seq<AgingRow>, increaseIsDebit: bool, n: nat): int
    requires n <= |rows|
  {
    if n == 0 then 0
    else
      NetAfter(rows, increaseIsDebit, n - 1) +
      Increase(rows[n - 1], increaseIsDebit) - Decrease(rows[n - 1], increaseIsDebit)
  }

  function Net(rows: seq<AgingRow>, increaseIsDebit: bool): int {
    NetAfter(rows, increaseIsDebit, |rows|)
  }

  /** The smallest net after any of the first n prefixes, the empty one included. */
  function LowestNet(rows: seq<AgingRow>, increaseIsDebit: bool, n: nat): int
    requires n <= |rows|
  {
    if n == 0 then 0
    else Min(LowestNet(rows, increaseIsDebit, n - 1), NetAfter(rows, increaseIsDebit, n))
  }

  lemma {:induction false} LowestNetIsLowest(rows: seq<AgingRow>, increaseIsDebit: bool, n: nat) returns (at: nat)
    requires n <= |rows|
    ensures at <= n && LowestNet(rows, increaseIsDebit, n) == NetAfter(rows, increaseIsDebit, at) <= 0
    ensures forall k :: 0 <= k <= n ==> LowestNet(rows, increaseIsDebit, n) <= NetAfter(rows, increaseIsDebit, k)
  {
    if n == 0 {
      at := 0;
    } else {
      at := LowestNetIsLowest(rows, increaseIsDebit, n - 1);
      if NetAfter(rows, increaseIsDebit, n) < NetAfter(rows, increaseIsDebit, at) {
        at := n;
      }
    }
  }

  lemma {:induction false} NetOfPrefix(rows: seq<AgingRow>, increaseIsDebit: bool, m: nat, n: nat)
    requires n <= m <= |rows|
    ensures NetAfter(rows[..m], increaseIsDebit, n) == NetAfter(rows, increaseIsDebit, n)
    ensures LowestNet(rows[..m], increaseIsDebit, n) == LowestNet(rows, increaseIsDebit, n)
  {
    if n > 0 {
      NetOfPrefix(rows, increaseIsDebit, m, n - 1);
    }
  }

  lemma AppliedTotal(items: seq<OpenItem>, decrease: nat)
    ensures Total(Positive(Applied(items, decrease))) == Left(Total(items), decrease)
  {
    PositiveKeeps(Applied(items, decrease), 0);
    AppliedTotalOnly(items, decrease);
  }

  /** One more row raises the total, or lowers it as far as zero. */
  lemma LastRowTotal(rows: seq<AgingRow>, increaseIsDebit: bool)
    requires rows != [] && OneSidedRow(rows[|rows| - 1])
    ensures var r, before := rows[|rows| - 1], Total(OpenItems(rows[..|rows| - 1], increaseIsDebit));
            Total(OpenItems(rows, increaseIsDebit)) ==
            if Increase(r, increaseIsDebit) > 0 then before + Increase(r, increaseIsDebit)
            else Left(before, Decrease(r, increaseIsDebit))
  {
    var r, before := rows[|rows| - 1], OpenItems(rows[..|rows| - 1], increaseIsDebit);
    if Increase(r, increaseIsDebit) > 0 {
      SumsAppend(before, OpenItem(r.date, Increase(r, increaseIsDebit)), 0);
    } else {
      AppliedTotal(before, Decrease(r, increaseIsDebit));
    }
  }

  /** The open total is the running balance reflected at zero: the final net less
      the smallest net of any prefix. This needs no date order. */
  lemma {:induction false} TotalIsReflectedNet(rows: seq<AgingRow>, increaseIsDebit: bool)
    requires OneSidedRows(rows)
    ensures Total(OpenItems(rows, increaseIsDebit)) ==
            Net(rows, increaseIsDebit) - LowestNet(rows, increaseIsDebit, |rows|)
  {
    if rows != [] {
      var n := |rows| - 1;
      var init, r := rows[..n], rows[n];
      assert r in rows && forall q :: q in init ==> q in rows;
      TotalIsReflectedNet(init, increaseIsDebit);
      NetOfPrefix(rows, increaseIsDebit, n, n);
      LastRowTotal(rows, increaseIsDebit);
    }
  }

  /** No prefix nets to less than the floor. */
  predicate NeverBelow(rows: seq<AgingRow>, increaseIsDebit: bool, floor: int) {
    forall n :: 0 <= n <= |rows| ==> NetAfter(rows, increaseIsDebit, n) >= floor
  }

  predicate NeverNegative(rows: seq<AgingRow>, increaseIsDebit: bool) {
    NeverBelow(rows, increaseIsDebit, 0)
  }

  /** The query's order within a day: increases come before decreases. */
  predicate IncreasesFirst(rows: seq<AgingRow>, increaseIsDebit: bool) {
    forall i, j :: 0 <= i < j < |rows| && rows[i].date == rows[j].date && Increase(rows[j], increaseIsDebit) > 0 ==>
      Increase(rows[i], increaseIsDebit) > 0
  }

  /** The account's balance at the end of a day. */
  function NetThrough(rows: seq<AgingRow>, increaseIsDebit: bool, day: Date): int {
    if rows == [] then 0
    else
      var r := rows[|rows| - 1];
      NetThrough(rows[..|rows| - 1], increaseIsDebit, day) +
      if r.date <= day then Increase(r, increaseIsDebit) - Decrease(r, increaseIsDebit) else 0
  }

  predicate NeverBelowAtDayEnd(rows: seq<AgingRow>, increaseIsDebit: bool, floor: int) {
    forall r :: r in rows ==> NetThrough(rows, increaseIsDebit, r.date) >= floor
  }

  predicate NeverNegativeAtDayEnd(rows: seq<AgingRow>, increaseIsDebit: bool) {
    NeverBelowAtDayEnd(rows, increaseIsDebit, 0)
  }

  /** The rows dated by a day, in date order, form a prefix. */
  lemma {:induction false} NetThroughIsPrefix(rows: seq<AgingRow>, increaseIsDebit: bool, day: Date) returns (n: nat)
    requires RowsInOrder(rows)
    ensures n <= |rows| && NetThrough(rows, increaseIsDebit, day) == NetAfter(rows, increaseIsDebit, n)
    ensures forall i :: 0 <= i < |rows| ==> (i < n <==> rows[i].date <= day)
  {
    if rows == [] {
      n := 0;
    } else {
      var m := |rows| - 1;
      n := NetThroughIsPrefix(rows[..m], increaseIsDebit, day);
      NetOfPrefix(rows, increaseIsDebit, m, n);
      if rows[m].date <= day {
        assert n == m;
        n := |rows|;
      }
    }
  }

  lemma {:induction false} OnlyIncreasesRaise(rows: seq<AgingRow>, increaseIsDebit: bool, lo: nat, hi: nat)
    requires lo <= hi <= |rows| && OneSidedRows(rows)
    requires forall i :: lo <= i < hi ==> Increase(rows[i], increaseIsDebit) > 0
    ensures NetAfter(rows, increaseIsDebit, lo) <= NetAfter(rows, increaseIsDebit, hi)
  {
    if lo < hi {
      assert rows[hi - 1] in rows;
      OnlyIncreasesRaise(rows, increaseIsDebit, lo, hi - 1);
    }
  }

  lemma {:induction false} OnlyDecreasesLower(rows: seq<AgingRow>, increaseIsDebit: bool, lo: nat, hi: nat)
    requires lo <= hi <= |rows|
    requires forall i :: lo <= i < hi ==> Increase(rows[i], increaseIsDebit) == 0
    ensures NetAfter(rows, increaseIsDebit, lo) >= NetAfter(rows, increaseIsDebit, hi)
  {
    if lo < hi {
      OnlyDecreasesLower(rows, increaseIsDebit, lo, hi - 1);
    }
  }

  lemma {:induction false} PrefixNotBelow(rows: seq<AgingRow>, increaseIsDebit: bool, floor: int, n: nat)
    requires OneSidedRows(rows) && RowsInOrder(rows) && IncreasesFirst(rows, increaseIsDebit) && n <= |rows|
    requires floor <= 0 && NeverBelowAtDayEnd(rows, increaseIsDebit, floor)
    ensures NetAfter(rows, increaseIsDebit, n) >= floor
  {
    if n > 0 {
      PrefixNotBelow(rows, increaseIsDebit, floor, n - 1);
      var r := rows[n - 1];
      assert r in rows;
      if Increase(r, increaseIsDebit) == 0 {
        var end := NetThroughIsPrefix(rows, increaseIsDebit, r.date);
        forall i | n <= i < end ensures Increase(rows[i], increaseIsDebit) == 0 {
          assert rows[i].date == r.date;
        }
        OnlyDecreasesLower(rows, increaseIsDebit, n, end);
      }
    }
  }

  /** With increases first in each day, the running balance never falls below a floor
      exactly when it is not below it at the end of any day. */
  lemma DayEndsDecide(rows: seq<AgingRow>, increaseIsDebit: bool, floor: int)
    requires OneSidedRows(rows) && RowsInOrder(rows) && IncreasesFirst(rows, increaseIsDebit) && floor <= 0
    ensures NeverBelow(rows, increaseIsDebit, floor) <==> NeverBelowAtDayEnd(rows, increaseIsDebit, floor)
  {
    if NeverBelow(rows, increaseIsDebit, floor) {
      forall r | r in rows ensures NetThrough(rows, increaseIsDebit, r.date) >= floor {
        var n := NetThroughIsPrefix(rows, increaseIsDebit, r.date);
      }
    }
    if NeverBelowAtDayEnd(rows, increaseIsDebit, floor) {
      forall n | 0 <= n <= |rows| ensures NetAfter(rows, increaseIsDebit, n) >= floor {
        PrefixNotBelow(rows, increaseIsDebit, floor, n);
      }
    }
  }

  /** The aging total is the plain account balance exactly when that balance was
      negative at no day's end. */
  lemma TotalIsBalanceExactlyWhen(rows: seq<AgingRow>, increaseIsDebit: bool)
    requires OneSidedRows(rows) && RowsInOrder(rows) && IncreasesFirst(rows, increaseIsDebit)
    ensures Total(OpenItems(rows, increaseIsDebit)) == Net(rows, increaseIsDebit) <==>
            NeverNegativeAtDayEnd(rows, increaseIsDebit)
  {
    TotalIsReflectedNet(rows, increaseIsDebit);
    DayEndsDecide(rows, increaseIsDebit, 0);
    var at := LowestNetIsLowest(rows, increaseIsDebit, |rows|);
  }

  /** The excess of credits that the receivable report adds when there is one. */
  function UnappliedCredit(rows: seq<AgingRow>): nat {
    if Net(rows, true) < 0 then -Net(rows, true) else 0
  }

  /** Credit can be unapplied beside an open item: a prepayment of ten on the first day and
      an invoice of five on the second leave five open and five unapplied. */
  lemma CreditBesideAnOpenItem()
    ensures var rows := [AgingRow(1, 0, 10), AgingRow(2, 5, 0)];
            && OneSidedRows(rows) && RowsInOrder(rows) && IncreasesFirst(rows, true)
            && OpenItems(rows, true) == [OpenItem(2, 5)] && UnappliedCredit(rows) == 5
  {
    var rows := [AgingRow(1, 0, 10), AgingRow(2, 5, 0)];
    assert rows[..1] == [rows[0]] && rows[..1][..0] == [];
    assert OpenItems(rows[..1], true) == [];
    assert NetAfter(rows, true, 1) == -10 && NetAfter(rows, true, 2) == -5;
  }

  /** Outstanding less unapplied credit is the receivable's balance exactly when
      the balance was never negative, or never lower than it is at the end. */
  lemma ReceivableTiesExactlyWhen(rows: seq<AgingRow>)
    requires OneSidedRows(rows)
    ensures Total(OpenItems(rows, true)) - UnappliedCredit(rows) == Net(rows, true) <==>
            NeverNegative(rows, true) || NeverBelow(rows, true, Net(rows, true))
  {
    TotalIsReflectedNet(rows, true);
    var at := LowestNetIsLowest(rows, true, |rows|);
    assert NetAfter(rows, true, 0) == 0;
  }

  /** A receipt before its invoice: the report shows more than the balance. */
  lemma EarlyReceiptDoesNotTie()
    ensures var rows := [AgingRow(1, 0, 5), AgingRow(2, 5, 0)];
            && OneSidedRows(rows) && RowsInOrder(rows) && IncreasesFirst(rows, true)
            && Total(OpenItems(rows, true)) == 5 && Net(rows, true) == 0 && UnappliedCredit(rows) == 0
  {
    var rows := [AgingRow(1, 0, 5), AgingRow(2, 5, 0)];
    assert rows[..1] == [rows[0]] && rows[..1][..0] == [];
    assert OpenItems(rows[..1], true) == [];
    assert OpenItems(rows, true) == [OpenItem(2, 5)];
    assert NetAfter(rows, true, 1) == -5 && NetAfter(rows, true, 2) == 0;
  }

  // ---------------------------------------------------- which items survive

  /** The increases, in order. */
  function Increases(rows: seq<AgingRow>, increaseIsDebit: bool): seq<OpenItem> {
    if rows == [] then []
    else
      var r := rows[|rows| - 1];
      Increases(rows[..|rows| - 1], increaseIsDebit) +
      if Increase(r, increaseIsDebit) > 0 then [OpenItem(r.date, Increase(r, increaseIsDebit))] else []
  }

  /** items are the last increases, and only the oldest of them is reduced. */
  predicate LastOnesWithFirstReduced(items: seq<OpenItem>, increases: seq<OpenItem>) {
    && |items| <= |increases|
    && var k := |increases| - |items|;
       forall i :: 0 <= i < |items| ==>
         && items[i].date == increases[k + i].date
         && 0 < items[i].amount <= increases[k + i].amount
         && (i > 0 ==> items[i] == increases[k + i])
  }

  lemma ShapeOfRest(items: seq<OpenItem>, increases: seq<OpenItem>)
    requires items != [] && LastOnesWithFirstReduced(items, increases)
    ensures LastOnesWithFirstReduced(items[1..], increases)
  {
  }

  lemma ShapeWithFirst(items: seq<OpenItem>, first: OpenItem, increases: seq<OpenItem>)
    requires items != [] && LastOnesWithFirstReduced(items, increases)
    requires first.date == items[0].date && 0 < first.amount <= items[0].amount
    ensures LastOnesWithFirstReduced([first] + items[1..], increases)
  {
  }

  lemma {:induction false} NothingLeftToApply(items: seq<OpenItem>)
    requires forall o :: o in items ==> o.amount > 0
    ensures Positive(Applied(items, 0)) == items
  {
    if items != [] {
      assert forall o :: o in items[1..] ==> o in items;
      NothingLeftToApply(items[1..]);
    }
  }

  lemma {:induction false} PositiveAppliedShape(items: seq<OpenItem>, decrease: nat, increases: seq<OpenItem>)
    requires LastOnesWithFirstReduced(items, increases)
    ensures LastOnesWithFirstReduced(Positive(Applied(items, decrease)), increases)
  {
    if items != [] {
      var taken := if items[0].amount <= decrease then items[0].amount else decrease;
      var rest := items[1..];
      var after := Applied(items, decrease);
      assert after[1..] == Applied(rest, decrease - taken);
      PositiveUnfolds(after);
      ShapeOfRest(items, increases);
      if taken == items[0].amount {
        PositiveAppliedShape(rest, decrease - taken, increases);
      } else {
        forall o | o in rest ensures o.amount > 0 {
          var i :| 0 <= i < |rest| && rest[i] == o;
          assert items[i + 1] == o;
        }
        NothingLeftToApply(rest);
        ShapeWithFirst(items, OpenItem(items[0].date, items[0].amount - taken), increases);
      }
    }
  }

  /** The surviving items are the most recent increases, in order, with only the
      oldest of them reduced. */
  lemma {:induction false} SurvivorsAreMostRecent(rows: seq<AgingRow>, increaseIsDebit: bool)
    ensures LastOnesWithFirstReduced(OpenItems(rows, increaseIsDebit), Increases(rows, increaseIsDebit))
  {
    if rows != [] {
      var init, r := rows[..|rows| - 1], rows[|rows| - 1];
      SurvivorsAreMostRecent(init, increaseIsDebit);
      if Increase(r, increaseIsDebit) == 0 {
        PositiveAppliedShape(OpenItems(init, increaseIsDebit), Decrease(r, increaseIsDebit),
          Increases(init, increaseIsDebit));
      }
    }
  }

  // ---------------------------------------------------------------- buckets

  datatype Bucket = Current | Days31To60 | Days61To90 | DaysOver90

  function BucketOf(outstandingDays: int): Bucket {
    if outstandingDays <= 30 then Current
    else if outstandingDays <= 60 then Days31To60
    else if outstandingDays <= 90 then Days61To90
    else DaysOver90
  }

  function InBucket(items: seq<OpenItem>, end: Date, bucket: Bucket): nat {
    if items == [] then 0
    else
      var o := items[|items| - 1];
      InBucket(items[..|items| - 1], end, bucket) + if BucketOf(end - o.date) == bucket then o.amount else 0
  }

  /** Each bucket is a difference of two cutoffs, so the buckets add up. */
  lemma {:induction false} BucketsFromCutoffs(items: seq<OpenItem>, end: Date)
    ensures InBucket(items, end, Current) == Since(items, end - 30)
    ensures InBucket(items, end, Days31To60) == Since(items, end - 60) - Since(items, end - 30)
    ensures InBucket(items, end, Days61To90) == Since(items, end - 90) - Since(items, end - 60)
    ensures InBucket(items, end, DaysOver90) == Total(items) - Since(items, end - 90)
  {
    if items != [] {
      var init, o := items[..|items| - 1], items[|items| - 1];
      BucketsFromCutoffs(init, end);
      assert init + [o] == items;
      SumsAppend(init, o, end - 30);
      SumsAppend(init, o, end - 60);
      SumsAppend(init, o, end - 90);
    }
  }

  /** The loop that adds each open item to its bucket. */
  method BucketTotals(items: seq<OpenItem>, end: Date) returns (buckets: map<Bucket, nat>, total: nat)
    ensures buckets.Keys == {Current, Days31To60, Days61To90, DaysOver90}
    ensures forall b :: b in buckets ==> buckets[b] == InBucket(items, end, b)
    ensures total == Total(items)
  {
    buckets := map[Current := 0, Days31To60 := 0, Days61To90 := 0, DaysOver90 := 0];
    for i := 0 to |items|
      invariant buckets.Keys == {Current, Days31To60, Days61To90, DaysOver90}
      invariant forall b :: b in buckets ==> buckets[b] == InBucket(items[..i], end, b)
    {
      assert items[..i + 1][..i] == items[..i];
      var bucket := BucketOf(end - items[i].date);
      buckets := buckets[bucket := buckets[bucket] + items[i].amount];
    }
    assert items[..|items|] == items;
    total := buckets[Current] + buckets[Days31To60] + buckets[Days61To90] + buckets[DaysOver90];
    BucketsFromCutoffs(items, end);
  }

  /** All four buckets in closed form: only the open total and the increases
      since three dates matter. */
  lemma BucketsInClosedForm(rows: seq<AgingRow>, increaseIsDebit: bool, end: Date)
    requires OneSidedRows(rows) && RowsInOrder(rows)
    ensures var items := OpenItems(rows, increaseIsDebit);
            var open := Net(rows, increaseIsDebit) - LowestNet(rows, increaseIsDebit, |rows|);
            var since30 := Min(open, IncreasesSince(rows, increaseIsDebit, end - 30));
            var since60 := Min(open, IncreasesSince(rows, increaseIsDebit, end - 60));
            var since90 := Min(open, IncreasesSince(rows, increaseIsDebit, end - 90));
            && InBucket(items, end, Current) == since30
            && InBucket(items, end, Days31To60) == since60 - since30
            && InBucket(items, end, Days61To90) == since90 - since60
            && InBucket(items, end, DaysOver90) == open - since90
  {
    TotalIsReflectedNet(rows, increaseIsDebit);
    BucketsFromCutoffs(OpenItems(rows, increaseIsDebit), end);
    OpenSince(rows, increaseIsDebit, end - 30);
    OpenSince(rows, increaseIsDebit, end - 60);
    OpenSince(rows, increaseIsDebit, end - 90);
  }
}
