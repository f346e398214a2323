/** Keyset paging of the journal list: pages of at most `limit` rows after a
    cursor, and the cursor text that leads from one page to the next. */
module Paging {
  import opened Sums

  datatype Key = Key(date: int, reference: string)

  /** A journal as the list sees it; `facts` is everything the filter looks at. */
  datatype Row = Row(key: Key, facts: string)

  /** The database's order on references. */
  type Collation = (string, string) -> bool

  ghost predicate TotalOrder(less: Collation) {
    && (forall a :: !less(a, a))
    && (forall a, b :: less(a, b) || less(b, a) || a == b)
    && (forall a, b, c :: less(a, b) && less(b, c) ==> less(a, c))
  }

  /** Row comparison (date, reference) < (date, reference). */
  predicate Before(less: Collation, a: Key, b: Key) {
    a.date < b.date || (a.date == b.date && less(a.reference, b.reference))
  }

  // ------------------------------------------------------------------ cursors

  /** ISO dates as text. */
  datatype Calendar = Calendar(iso: int -> string, parse: string -> Option<int>)

  ghost predicate IsoDates(calendar: Calendar) {
    forall d :: calendar.parse(calendar.iso(d)) == Some(d) && calendar.iso(d) != "" && '|' !in calendar.iso(d)
  }

  function PrintCursor(calendar: Calendar, k: Key): string {
    calendar.iso(k.date) + "|" + k.reference
  }

  function BarAt(text: string): (k: nat)
    ensures k <= |text| && '|' !in text[..k] && (k < |text| ==> text[k] == '|')
  {
    if text == [] || text[0] == '|' then 0
    else
      var k := BarAt(text[1..]);
      assert text[..k + 1] == [text[0]] + text[1..][..k];
      k + 1
  }

  datatype Cursor = NoCursor | At(key: Key) | Malformed

  function ParseCursor(calendar: Calendar, text: string): Cursor {
    if text == "" then NoCursor
    else
      var k := BarAt(text);
      if k == |text| || k == 0 || k + 1 == |text| then Malformed
      else if calendar.parse(text[..k]).None? then Malformed
      else At(Key(calendar.parse(text[..k]).value, text[k + 1..]))
  }

  lemma {:induction false} BarIsFound(before: string, rest: string)
    requires '|' !in before && rest != "" && rest[0] == '|'
    ensures BarAt(before + rest) == |before|
  {
    if before == "" {
      assert before + rest == rest;
    } else {
      assert (before + rest)[1..] == before[1..] + rest;
      assert before[0] in before;
      BarIsFound(before[1..], rest);
    }
  }

  /** A printed cursor parses back to the key it came from, even where the
      reference holds a bar itself. */
  lemma CursorParsesBack(calendar: Calendar, k: Key)
    requires IsoDates(calendar) && k.reference != ""
    ensures ParseCursor(calendar, PrintCursor(calendar, k)) == At(k)
  {
    var date, text := calendar.iso(k.date), PrintCursor(calendar, k);
    assert text == date + ("|" + k.reference);
    BarIsFound(date, "|" + k.reference);
    assert text[..|date|] == date && text[|date| + 1..] == k.reference;
  }

  /** A cursor is a date, a bar and a reference, none of them missing; the first bar is the
      one between them, and any other text but the empty one is malformed. */
  lemma CursorExactlyWhen(calendar: Calendar, text: string, k: Key)
    ensures ParseCursor(calendar, text) == At(k) <==>
            exists date ::
              && text == date + "|" + k.reference && date != "" && '|' !in date && k.reference != ""
              && calendar.parse(date) == Some(k.date)
    ensures ParseCursor(calendar, text) == NoCursor <==> text == ""
  {
    if ParseCursor(calendar, text) == At(k) {
      var bar := BarAt(text);
      assert text == text[..bar] + "|" + text[bar + 1..];
    }
    if date :| text == date + "|" + k.reference && date != "" && '|' !in date && k.reference != ""
               && calendar.parse(date) == Some(k.date)
    {
      assert text == date + ("|" + k.reference);
      BarIsFound(date, "|" + k.reference);
      assert text[..|date|] == date && text[|date| + 1..] == k.reference;
    }
  }

  // ------------------------------------------------------------------- a page

  function Filter(rows: seq<Row>, p: Row -> bool): (kept: seq<Row>)
    ensures forall r :: r in kept <==> r in rows && p(r)
  {
    if rows == [] then []
    else
      var last := rows[|rows| - 1];
      assert rows == rows[..|rows| - 1] + [last];
      Filter(rows[..|rows| - 1], p) + if p(last) then [last] else []
  }

  function Insert(less: Collation, sorted: seq<Row>, r: Row): (s: seq<Row>)
    ensures |s| == |sorted| + 1 && forall x :: x in s <==> x in sorted || x == r
  {
    if sorted == [] then [r]
    else
      var last := sorted[|sorted| - 1];
      assert sorted == sorted[..|sorted| - 1] + [last];
      if Before(less, r.key, last.key) then Insert(less, sorted[..|sorted| - 1], r) + [last] else sorted + [r]
  }

  /** ORDER BY accounting_date, journal_reference. */
  function Ordered(less: Collation, rows: seq<Row>): (s: seq<Row>)
    ensures |s| == |rows| && forall x :: x in s <==> x in rows
  {
    if rows == [] then []
    else
      assert rows == rows[..|rows| - 1] + [rows[|rows| - 1]];
      Insert(less, Ordered(less, rows[..|rows| - 1]), rows[|rows| - 1])
  }

  function After(less: Collation, wanted: Row -> bool, cursor: Cursor): Row -> bool {
    (r: Row) => wanted(r) && (cursor.At? ==> Before(less, cursor.key, r.key))
  }

  /** All rows the query would list, had it no limit. */
  function Selected(less: Collation, rows: seq<Row>, wanted: Row -> bool, cursor: Cursor): seq<Row> {
    Ordered(less, Filter(rows, After(less, wanted, cursor)))
  }

  datatype Page = Page(rows: seq<Row>, next: string)

  /** One page: fetch one row more than the limit, and point after the last row
      shown when there was one more. */
  function LoadPage(
    less: Collation, calendar: Calendar, rows: seq<Row>, wanted: Row -> bool, limit: nat, cursor: Cursor): Page
    requires limit > 0
  {
    var selected := Selected(less, rows, wanted, cursor);
    var fetched := if |selected| > limit + 1 then selected[..limit + 1] else selected;
    if |fetched| > limit then Page(fetched[..limit], PrintCursor(calendar, fetched[limit - 1].key))
    else Page(fetched, "")
  }

  // ----------------------------------------------------------------- ordering

  predicate StrictlySorted(less: Collation, s: seq<Row>) {
    forall i, j :: 0 <= i < j < |s| ==> Before(less, s[i].key, s[j].key)
  }

  predicate DistinctKeys(rows: seq<Row>) {
    forall i, j :: 0 <= i < j < |rows| ==> rows[i].key != rows[j].key
  }

  lemma {:induction false} InsertSorts(less: Collation, sorted: seq<Row>, r: Row)
    requires TotalOrder(less) && StrictlySorted(less, sorted)
    requires forall x :: x in sorted ==> x.key != r.key
    ensures StrictlySorted(less, Insert(less, sorted, r))
  {
    if sorted != [] {
      var init, last := sorted[..|sorted| - 1], sorted[|sorted| - 1];
      assert last in sorted;
      if Before(less, r.key, last.key) {
        InsertSorts(less, init, r);
        var s := Insert(less, init, r);
        forall i | 0 <= i < |s| ensures Before(less, s[i].key, last.key) {
          assert s[i] in s;
          var k :| s[i] == r || (0 <= k < |init| && init[k] == s[i]);
        }
      } else {
        forall i | 0 <= i < |sorted| ensures Before(less, sorted[i].key, r.key) {
          assert i == |sorted| - 1 || Before(less, sorted[i].key, last.key);
        }
      }
    }
  }

  lemma {:induction false} OrderedSorts(less: Collation, rows: seq<Row>)
    requires TotalOrder(less) && DistinctKeys(rows)
    ensures StrictlySorted(less, Ordered(less, rows))
  {
    if rows != [] {
      var init := rows[..|rows| - 1];
      OrderedSorts(less, init);
      forall x | x in Ordered(less, init) ensures x.key != rows[|rows| - 1].key {
        var k :| 0 <= k < |init| && init[k] == x;
      }
      InsertSorts(less, Ordered(less, init), rows[|rows| - 1]);
    }
  }

  lemma {:induction false} FilterKeepsDistinct(rows: seq<Row>, p: Row -> bool)
    requires DistinctKeys(rows)
    ensures DistinctKeys(Filter(rows, p))
  {
    if rows != [] {
      var init, last := rows[..|rows| - 1], rows[|rows| - 1];
      FilterKeepsDistinct(init, p);
      var kept := Filter(init, p);
      forall i | 0 <= i < |kept| ensures kept[i].key != last.key {
        assert kept[i] in kept;
        var k :| 0 <= k < |init| && init[k] == kept[i];
      }
    }
  }

  lemma LastIsLast(less: Collation, a: seq<Row>, b: seq<Row>, k: nat)
    requires TotalOrder(less) && StrictlySorted(less, a) && StrictlySorted(less, b)
    requires a != [] && k < |b| && b[k] == a[|a| - 1] && forall x :: x in b ==> x in a
    ensures k == |b| - 1
  {
    var last := b[|b| - 1];
    assert last in b;
    var m :| 0 <= m < |a| && a[m] == last;
    assert forall i :: 0 <= i < |a| - 1 ==> Before(less, a[i].key, a[|a| - 1].key);
    assert forall i :: 0 <= i < |b| - 1 ==> Before(less, b[i].key, last.key);
  }

  lemma InButLast(less: Collation, a: seq<Row>, x: Row)
    requires TotalOrder(less) && StrictlySorted(less, a) && a != []
    ensures x in a[..|a| - 1] <==> x in a && x != a[|a| - 1]
  {
    var c := a[..|a| - 1];
    assert a == c + [a[|a| - 1]];
    if x in c {
      var k :| 0 <= k < |c| && c[k] == x;
      assert Before(less, a[k].key, a[|a| - 1].key);
    }
  }

  /** A strictly sorted list is determined by its rows. */
  lemma {:induction false} SortedIsUnique(less: Collation, a: seq<Row>, b: seq<Row>)
    requires TotalOrder(less) && StrictlySorted(less, a) && StrictlySorted(less, b)
    requires forall x :: x in a <==> x in b
    ensures a == b
  {
    assert b != [] ==> b[0] in b;
    if a != [] {
      var last := a[|a| - 1];
      assert last in b;
      var k :| 0 <= k < |b| && b[k] == last;
      LastIsLast(less, a, b, k);
      var c, d := a[..|a| - 1], b[..|b| - 1];
      forall x ensures x in c <==> x in d {
        InButLast(less, a, x);
        InButLast(less, b, x);
      }
      SortedIsUnique(less, c, d);
    }
  }

  lemma SelectedIsSorted(less: Collation, rows: seq<Row>, wanted: Row -> bool, cursor: Cursor)
    requires TotalOrder(less) && DistinctKeys(rows)
    ensures StrictlySorted(less, Selected(less, rows, wanted, cursor))
    ensures forall r :: r in Selected(less, rows, wanted, cursor) <==> r in rows && After(less, wanted, cursor)(r)
  {
    FilterKeepsDistinct(rows, After(less, wanted, cursor));
    OrderedSorts(less, Filter(rows, After(less, wanted, cursor)));
  }

  lemma TailMembers(less: Collation, all: seq<Row>, n: nat, r: Row)
    requires TotalOrder(less) && StrictlySorted(less, all) && 0 < n <= |all|
    ensures r in all[n..] <==> r in all && Before(less, all[n - 1].key, r.key)
  {
    forall k | n <= k < |all| ensures all[k] in all[n..] {
      assert all[n..][k - n] == all[k];
    }
    if r in all[n..] {
      var k :| 0 <= k < |all| - n && all[n..][k] == r;
      assert all[n + k] == r && r in all;
      assert Before(less, all[n - 1].key, all[n + k].key);
    } else if r in all {
      var k :| 0 <= k < |all| && all[k] == r;
      assert k == n - 1 || Before(less, all[k].key, all[n - 1].key);
    }
  }

  lemma AfterInTurn(less: Collation, wanted: Row -> bool, cursor: Cursor, r: Row, s: Row)
    requires TotalOrder(less) && After(less, wanted, cursor)(r)
    ensures After(less, wanted, At(r.key))(s) <==> After(less, wanted, cursor)(s) && Before(less, r.key, s.key)
  {
    if cursor.At? && Before(less, r.key, s.key) {
      assert Before(less, cursor.key, r.key);
      assert Before(less, cursor.key, s.key);
    }
  }

  lemma RestMembers(less: Collation, rows: seq<Row>, wanted: Row -> bool, cursor: Cursor, n: nat, r: Row)
    requires TotalOrder(less) && DistinctKeys(rows) && 0 < n <= |Selected(less, rows, wanted, cursor)|
    ensures var all := Selected(less, rows, wanted, cursor);
            r in Selected(less, rows, wanted, At(all[n - 1].key)) <==> r in all[n..]
  {
    var all := Selected(less, rows, wanted, cursor);
    var key := all[n - 1].key;
    SelectedIsSorted(less, rows, wanted, cursor);
    SelectedIsSorted(less, rows, wanted, At(key));
    assert all[n - 1] in all;
    TailMembers(less, all, n, r);
    AfterInTurn(less, wanted, cursor, all[n - 1], r);
  }

  /** What comes after a listed row is the rest of the list. */
  lemma AfterIsTheRest(less: Collation, rows: seq<Row>, wanted: Row -> bool, cursor: Cursor, n: nat)
    requires TotalOrder(less) && DistinctKeys(rows) && 0 < n <= |Selected(less, rows, wanted, cursor)|
    ensures var all := Selected(less, rows, wanted, cursor);
            Selected(less, rows, wanted, At(all[n - 1].key)) == all[n..]
  {
    var all := Selected(less, rows, wanted, cursor);
    var next := At(all[n - 1].key);
    var rest := Selected(less, rows, wanted, next);
    SelectedIsSorted(less, rows, wanted, cursor);
    SelectedIsSorted(less, rows, wanted, next);
    forall r ensures r in rest <==> r in all[n..] {
      RestMembers(less, rows, wanted, cursor, n, r);
    }
    SortedIsUnique(less, rest, all[n..]);
  }

  // ---------------------------------------------------------- all the pages

  /** The references the store holds are never empty. */
  predicate NamedRows(rows: seq<Row>) {
    forall r :: r in rows ==> r.key.reference != ""
  }

  /** A page by the rows the query selects. */
  lemma PageShape(
    less: Collation, calendar: Calendar, rows: seq<Row>, wanted: Row -> bool, limit: nat, cursor: Cursor, all: seq<Row>)
    requires limit > 0 && all == Selected(less, rows, wanted, cursor)
    ensures var p := LoadPage(less, calendar, rows, wanted, limit, cursor);
            if |all| <= limit then p == Page(all, "")
            else p.rows == all[..limit] && p.next == PrintCursor(calendar, all[limit - 1].key)
  {
    if |all| > limit {
      assert all[..limit + 1][..limit] == all[..limit];
    }
  }

  lemma ListedAreNamed(less: Collation, rows: seq<Row>, wanted: Row -> bool, cursor: Cursor, n: nat)
    requires NamedRows(rows) && n < |Selected(less, rows, wanted, cursor)|
    ensures Selected(less, rows, wanted, cursor)[n].key.reference != ""
  {
    assert Selected(less, rows, wanted, cursor)[n] in Selected(less, rows, wanted, cursor);
  }

  lemma PageIsTheStart(
    less: Collation, calendar: Calendar, rows: seq<Row>, wanted: Row -> bool, limit: nat, cursor: Cursor)
    requires TotalOrder(less) && IsoDates(calendar) && DistinctKeys(rows) && NamedRows(rows) && limit > 0
    ensures var all := Selected(less, rows, wanted, cursor);
            var p := LoadPage(less, calendar, rows, wanted, limit, cursor);
            if |all| <= limit then p == Page(all, "")
            else
              && p.rows == all[..limit] && p.next != ""
              && Selected(less, rows, wanted, ParseCursor(calendar, p.next)) == all[limit..]
  {
    var all := Selected(less, rows, wanted, cursor);
    PageShape(less, calendar, rows, wanted, limit, cursor, all);
    if |all| > limit {
      ListedAreNamed(less, rows, wanted, cursor, limit - 1);
      CursorParsesBack(calendar, all[limit - 1].key);
      AfterIsTheRest(less, rows, wanted, cursor, limit);
    }
  }

  /** Follow next_cursor, page after page, until there is none. */
  ghost function Follow(
    less: Collation, calendar: Calendar, rows: seq<Row>, wanted: Row -> bool, limit: nat, cursor: Cursor)
    : (pages: seq<seq<Row>>)
    requires TotalOrder(less) && IsoDates(calendar) && DistinctKeys(rows) && NamedRows(rows) && limit > 0
    decreases |Selected(less, rows, wanted, cursor)|
  {
    var p := LoadPage(less, calendar, rows, wanted, limit, cursor);
    PageIsTheStart(less, calendar, rows, wanted, limit, cursor);
    if p.next == "" then [p.rows]
    else [p.rows] + Follow(less, calendar, rows, wanted, limit, ParseCursor(calendar, p.next))
  }

  function Joined(pages: seq<seq<Row>>): seq<Row> {
    if pages == [] then [] else pages[0] + Joined(pages[1..])
  }

  /** A list cut into pages of `limit` rows: at least one page, all but the last
      full, and none beyond max(1, ceil(n / limit)). */
  predicate CutInto(pages: seq<seq<Row>>, all: seq<Row>, limit: nat) {
    && Joined(pages) == all
    && |pages| >= 1 && |all| <= |pages| * limit && (|pages| > 1 ==> (|pages| - 1) * limit < |all|)
    && forall i :: 0 <= i < |pages| - 1 ==> |pages[i]| == limit
  }

  lemma OnePage(all: seq<Row>, limit: nat)
    requires |all| <= limit
    ensures CutInto([all], all, limit)
  {
    assert [all][1..] == [] && all + [] == all;
  }

  lemma PageBefore(all: seq<Row>, limit: nat, rest: seq<seq<Row>>)
    requires 0 < limit < |all| && CutInto(rest, all[limit..], limit)
    ensures CutInto([all[..limit]] + rest, all, limit)
  {
    var pages := [all[..limit]] + rest;
    assert pages[1..] == rest && all[..limit] + all[limit..] == all;
    assert |pages| * limit == |rest| * limit + limit;
    assert (|rest| - 1) * limit == |rest| * limit - limit;
  }

  lemma {:induction false} FollowingCuts(
    less: Collation, calendar: Calendar, rows: seq<Row>, wanted: Row -> bool, limit: nat, cursor: Cursor)
    requires TotalOrder(less) && IsoDates(calendar) && DistinctKeys(rows) && NamedRows(rows) && limit > 0
    ensures CutInto(Follow(less, calendar, rows, wanted, limit, cursor), Selected(less, rows, wanted, cursor), limit)
    decreases |Selected(less, rows, wanted, cursor)|
  {
    var all := Selected(less, rows, wanted, cursor);
    var p := LoadPage(less, calendar, rows, wanted, limit, cursor);
    PageIsTheStart(less, calendar, rows, wanted, limit, cursor);
    if |all| <= limit {
      OnePage(all, limit);
    } else {
      var next := ParseCursor(calendar, p.next);
      FollowingCuts(less, calendar, rows, wanted, limit, next);
      PageBefore(all, limit, Follow(less, calendar, rows, wanted, limit, next));
    }
  }

  /** By date, and within a date by reference. */
  predicate ListedBefore(less: Collation, a: Row, b: Row) {
    a.key.date < b.key.date || (a.key.date == b.key.date && less(a.key.reference, b.key.reference))
  }

  /** The wanted rows behind the cursor, if there is one. */
  predicate Wanted(less: Collation, wanted: Row -> bool, cursor: Cursor, r: Row) {
    wanted(r) &&
    (cursor.At? ==>
       || cursor.key.date < r.key.date
       || (cursor.key.date == r.key.date && less(cursor.key.reference, r.key.reference)))
  }

  /** Following the cursors from the start lists every wanted row exactly once, in
      order, in max(1, ceil(n / limit)) pages. */
  lemma FollowingListsEverything(
    less: Collation, calendar: Calendar, rows: seq<Row>, wanted: Row -> bool, limit: nat, cursor: Cursor)
    requires TotalOrder(less) && IsoDates(calendar) && DistinctKeys(rows) && NamedRows(rows) && limit > 0
    ensures var pages := Follow(less, calendar, rows, wanted, limit, cursor);
            && CutInto(pages, Joined(pages), limit)
            && (forall i, j :: 0 <= i < j < |Joined(pages)| ==> ListedBefore(less, Joined(pages)[i], Joined(pages)[j]))
            && forall r :: r in Joined(pages) <==> r in rows && Wanted(less, wanted, cursor, r)
  {
    FollowingCuts(less, calendar, rows, wanted, limit, cursor);
    SelectedIsSorted(less, rows, wanted, cursor);
  }
}
