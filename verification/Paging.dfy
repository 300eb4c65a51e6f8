/**
 * Telemetry paging: keyset cursors over rows of which one copy per event is shown, and
 * what a reader who follows the cursors to the end has seen.
 */
module Paging {
  import opened Basics
  import opened Sorting

  datatype Key = Key(timestamp: int, eventId: string)

  /** A stored row; an event delivered twice may be stored as several rows. */
  datatype Row = Row(key: Key, columns: map<string, string>)

  /** The half-open time window, the column filters as one predicate, and the page size. */
  datatype Query = Query(start: int, end: int, selects: Row -> bool, limit: nat)

  datatype Page = Page(items: seq<Row>, next: Option<Key>)

  // ----- The order on (event_timestamp, event_id) -----

  predicate TextBelow(a: string, b: string) {
    b != [] && (a == [] || a[0] < b[0] || (a[0] == b[0] && TextBelow(a[1..], b[1..])))
  }

  predicate Below(a: Key, b: Key) {
    a.timestamp < b.timestamp || (a.timestamp == b.timestamp && TextBelow(a.eventId, b.eventId))
  }

  lemma {:induction false} TextBelowTotal(a: string, b: string)
    ensures a == b || TextBelow(a, b) || TextBelow(b, a)
    ensures !(TextBelow(a, b) && (a == b || TextBelow(b, a)))
  {
    if a != [] && b != [] {
      TextBelowTotal(a[1..], b[1..]);
      assert a == [a[0]] + a[1..] && b == [b[0]] + b[1..];
    }
  }

  lemma {:induction false} TextBelowTransitive(a: string, b: string, c: string)
    requires TextBelow(a, b) && TextBelow(b, c)
    ensures TextBelow(a, c)
  {
    if a != [] && a[0] == b[0] && b[0] == c[0] {
      TextBelowTransitive(a[1..], b[1..], c[1..]);
    }
  }

  lemma BelowTotal(a: Key, b: Key)
    ensures a == b || Below(a, b) || Below(b, a)
    ensures !(Below(a, b) && (a == b || Below(b, a)))
  {
    hide TextBelow;
    TextBelowTotal(a.eventId, b.eventId);
  }

  lemma BelowTransitive(a: Key, b: Key, c: Key)
    requires Below(a, b) && Below(b, c)
    ensures Below(a, c)
  {
    hide TextBelow;
    if a.timestamp == b.timestamp == c.timestamp {
      TextBelowTransitive(a.eventId, b.eventId, c.eventId);
    }
  }

  // ----- The query -----

  predicate Matches(q: Query, row: Row) {
    q.start <= row.key.timestamp < q.end && q.selects(row)
  }

  predicate Under(cursor: Option<Key>, key: Key) {
    cursor.None? || Below(key, cursor.value)
  }

  /** The WHERE clause: window, filters, and the cursor as a row-value comparison. */
  function Where(q: Query, cursor: Option<Key>): Row -> bool {
    (row: Row) => Matches(q, row) && Under(cursor, row.key)
  }

  /** Which rows are asked for: inside the window, selected by the filters, and below the cursor. */
  lemma WhereMeaning(q: Query, cursor: Option<Key>, row: Row)
    ensures Where(q, cursor)(row)
       <==> && q.start <= row.key.timestamp && row.key.timestamp < q.end && q.selects(row)
            && (cursor.Some? ==>
                  || row.key.timestamp < cursor.value.timestamp
                  || (row.key.timestamp == cursor.value.timestamp
                      && TextBelow(row.key.eventId, cursor.value.eventId)))
  {
  }

  /** ORDER BY event_timestamp DESC, event_id DESC leaves the order of equal keys open. */
  predicate Descending(rows: seq<Row>) {
    forall i, j :: 0 <= i < j < |rows| ==> !Below(rows[i].key, rows[j].key)
  }

  predicate StrictlyDescending(rows: seq<Row>) {
    forall i, j :: 0 <= i < j < |rows| ==> Below(rows[j].key, rows[i].key)
  }

  predicate DistinctEvents(rows: seq<Row>) {
    forall i, j :: 0 <= i < j < |rows| ==> rows[i].key.eventId != rows[j].key.eventId
  }

  predicate HasEvent(rows: seq<Row>, id: string) {
    exists i :: 0 <= i < |rows| && rows[i].key.eventId == id
  }

  /** LIMIT 1 BY event_id: the first row of every event. */
  function FirstPerEvent(rows: seq<Row>): seq<Row> {
    if rows == [] then []
    else
      var init, last := rows[..|rows| - 1], rows[|rows| - 1];
      FirstPerEvent(init) + (if HasEvent(init, last.key.eventId) then [] else [last])
  }

  predicate Arranges(sorted: seq<Row>, table: seq<Row>, q: Query, cursor: Option<Key>) {
    Descending(sorted) && multiset(sorted) == multiset(Filter(Where(q, cursor), table))
  }

  function Take(rows: seq<Row>, n: nat): seq<Row> {
    if |rows| <= n then rows else rows[..n]
  }

  /** `page` over the answer of `selectRows`, which asks for one row more than it shows. */
  function PageOf(rows: seq<Row>, limit: nat): Page {
    var visible := Take(rows, limit);
    Page(visible, if |rows| > limit && visible != [] then Some(visible[|visible| - 1].key) else None)
  }

  function Fetched(sorted: seq<Row>, limit: nat): Page {
    PageOf(Take(FirstPerEvent(sorted), limit + 1), limit)
  }

  /** A page the store may answer with; the order of copies is the store's choice. */
  ghost predicate Answers(table: seq<Row>, q: Query, cursor: Option<Key>, page: Page) {
    exists sorted :: Arranges(sorted, table, q, cursor) && page == Fetched(sorted, q.limit)
  }

  /** The pages a reader sees who follows the cursors until there is none. */
  ghost predicate Walk(table: seq<Row>, q: Query, cursor: Option<Key>, pages: seq<Page>)
    decreases |pages|
  {
    && pages != []
    && Answers(table, q, cursor, pages[0])
    && match pages[0].next
       case None => |pages| == 1
       case Some(key) => Walk(table, q, Some(key), pages[1..])
  }

  function Items(pages: seq<Page>): seq<Row> {
    if pages == [] then [] else pages[0].items + Items(pages[1..])
  }

  // ----- One page -----

  /** A row of the same event, at least as new. */
  predicate AtLeast(shown: Row, row: Row) {
    shown.key.eventId == row.key.eventId && !Below(shown.key, row.key)
  }

  predicate ShownAtOrAbove(rows: seq<Row>, row: Row) {
    exists i :: 0 <= i < |rows| && AtLeast(rows[i], row)
  }

  lemma NotBelowTransitive(a: Key, b: Key, c: Key)
    requires !Below(a, b) && !Below(b, c)
    ensures !Below(a, c)
  {
    hide Below;
    BelowTotal(a, b);
    BelowTotal(b, c);
    BelowTotal(a, c);
    if Below(b, a) && Below(c, b) {
      BelowTransitive(c, b, a);
    }
  }

  ghost predicate StandsFor(kept: seq<Row>, rows: seq<Row>) {
    && StrictlyDescending(kept) && DistinctEvents(kept)
    && (forall row :: row in kept ==> row in rows)
    && forall row :: row in rows ==> ShownAtOrAbove(kept, row)
  }

  lemma StandsForRepeated(kept: seq<Row>, init: seq<Row>, last: Row)
    requires StandsFor(kept, init) && Descending(init + [last]) && HasEvent(init, last.key.eventId)
    ensures StandsFor(kept, init + [last])
  {
    hide Below, StrictlyDescending, DistinctEvents;
    var i :| 0 <= i < |init| && init[i].key.eventId == last.key.eventId;
    assert init[i] in init;
    var j :| 0 <= j < |kept| && AtLeast(kept[j], init[i]);
    assert (init + [last])[i] == init[i] && (init + [last])[|init|] == last;
    NotBelowTransitive(kept[j].key, init[i].key, last.key);
    assert AtLeast(kept[j], last);
  }

  lemma StandsForNew(kept: seq<Row>, init: seq<Row>, last: Row)
    requires StandsFor(kept, init) && Descending(init + [last]) && !HasEvent(init, last.key.eventId)
    ensures StandsFor(kept + [last], init + [last])
  {
    hide Below, StrictlyDescending, DistinctEvents, HasEvent, Descending;
    StrictlyAppend(init, kept, last);
    forall row | row in init + [last]
      ensures ShownAtOrAbove(kept + [last], row)
    {
      if row in init {
        var i :| 0 <= i < |kept| && AtLeast(kept[i], row);
        assert AtLeast((kept + [last])[i], row);
      } else {
        BelowTotal(last.key, last.key);
        assert AtLeast((kept + [last])[|kept|], row);
      }
    }
  }

  lemma {:induction false} FirstPerEventMeaning(rows: seq<Row>)
    requires Descending(rows)
    ensures StandsFor(FirstPerEvent(rows), rows)
  {
    hide Below;
    if rows != [] {
      var init, last := rows[..|rows| - 1], rows[|rows| - 1];
      assert rows == init + [last];
      FirstPerEventMeaning(init);
      hide StrictlyDescending, DistinctEvents, StandsFor, HasEvent, Descending;
      if HasEvent(init, last.key.eventId) {
        StandsForRepeated(FirstPerEvent(init), init, last);
        assert FirstPerEvent(init) + [] == FirstPerEvent(init);
      } else {
        StandsForNew(FirstPerEvent(init), init, last);
      }
    }
  }

  lemma StrictlyAppend(init: seq<Row>, kept: seq<Row>, last: Row)
    requires Descending(init + [last]) && StrictlyDescending(kept)
    requires forall row :: row in kept ==> row in init
    requires !HasEvent(init, last.key.eventId)
    requires DistinctEvents(kept)
    ensures StrictlyDescending(kept + [last]) && DistinctEvents(kept + [last])
  {
    hide Below;
    forall i | 0 <= i < |kept|
      ensures Below(last.key, kept[i].key) && kept[i].key.eventId != last.key.eventId
    {
      assert kept[i] in init;
      var j :| 0 <= j < |init| && init[j] == kept[i];
      assert (init + [last])[j] == kept[i] && (init + [last])[|init|] == last;
      BelowTotal(last.key, kept[i].key);
    }
  }

  /** A row the query may show below the cursor. */
  predicate Selected(table: seq<Row>, q: Query, cursor: Option<Key>, row: Row) {
    row in table && Matches(q, row) && Under(cursor, row.key)
  }

  /** What one page promises: which rows it shows, and what its cursor leaves for later. */
  ghost predicate PageIsSound(table: seq<Row>, q: Query, cursor: Option<Key>, page: Page) {
    && StrictlyDescending(page.items) && DistinctEvents(page.items)
    && (forall row :: row in page.items ==> Selected(table, q, cursor, row))
    && |page.items| <= q.limit
    && (page.next.Some? ==> |page.items| == q.limit && q.limit > 0 && page.next.value == page.items[q.limit - 1].key)
    && (page.next.Some? ==> exists row :: IsNews(table, q, page, row))
    && forall row :: Selected(table, q, cursor, row) && !LeftForLater(page.next, row)
         ==> ShownAtOrAbove(page.items, row)
  }

  /** A row still to come, of an event that the page does not show. */
  predicate IsNews(table: seq<Row>, q: Query, page: Page, row: Row) {
    Selected(table, q, page.next, row) && !HasEvent(page.items, row.key.eventId)
  }

  predicate LeftForLater(next: Option<Key>, row: Row) {
    next.Some? && Below(row.key, next.value)
  }

  lemma ArrangedMember(sorted: seq<Row>, table: seq<Row>, q: Query, cursor: Option<Key>, row: Row)
    requires Arranges(sorted, table, q, cursor)
    ensures row in sorted <==> Selected(table, q, cursor, row)
  {
    hide Below, Matches, Under;
    FilterMember(Where(q, cursor), table, row);
    assert row in sorted <==> row in multiset(sorted);
    assert row in Filter(Where(q, cursor), table) <==> row in multiset(Filter(Where(q, cursor), table));
  }

  /** The first `limit` of strictly descending rows stand for every row not below the cursor. */
  lemma PageCovers(rows: seq<Row>, page: Page, limit: nat, row: Row)
    requires limit >= 1 && StrictlyDescending(rows) && page == PageOf(Take(rows, limit + 1), limit)
    requires ShownAtOrAbove(rows, row) && !LeftForLater(page.next, row)
    ensures ShownAtOrAbove(page.items, row)
  {
    hide Below;
    var i :| 0 <= i < |rows| && AtLeast(rows[i], row);
    if i >= limit {
      assert page.next == Some(rows[limit - 1].key);
      NotBelowTransitive(rows[i].key, row.key, rows[limit - 1].key);
    }
    assert page.items[i] == rows[i];
    assert AtLeast(page.items[i], row);
  }

  lemma NextRowRemains(table: seq<Row>, q: Query, cursor: Option<Key>, rows: seq<Row>)
    requires 1 <= q.limit < |rows| && StrictlyDescending(rows) && DistinctEvents(rows)
    requires Selected(table, q, cursor, rows[q.limit])
    ensures Selected(table, q, Some(rows[q.limit - 1].key), rows[q.limit])
    ensures !HasEvent(Take(rows, q.limit), rows[q.limit].key.eventId)
  {
  }

  lemma TakeKeeps(rows: seq<Row>, n: nat)
    requires StrictlyDescending(rows) && DistinctEvents(rows)
    ensures StrictlyDescending(Take(rows, n)) && DistinctEvents(Take(rows, n))
    ensures forall row :: row in Take(rows, n) ==> row in rows
  {
    hide Below;
  }

  ghost predicate Lists(sorted: seq<Row>, table: seq<Row>, q: Query, cursor: Option<Key>) {
    forall row :: row in sorted <==> Selected(table, q, cursor, row)
  }

  lemma ShortenedPage(sorted: seq<Row>, rows: seq<Row>, page: Page, table: seq<Row>, q: Query, cursor: Option<Key>)
    requires q.limit >= 1 && StandsFor(rows, sorted) && Lists(sorted, table, q, cursor)
    requires page == PageOf(Take(rows, q.limit + 1), q.limit)
    ensures PageIsSound(table, q, cursor, page)
  {
    hide Below, Selected, LeftForLater, ShownAtOrAbove, StrictlyDescending, DistinctEvents;
    assert page.items == Take(rows, q.limit);
    TakeKeeps(rows, q.limit);
    if |rows| > q.limit {
      assert rows[q.limit] in rows;
      NextRowRemains(table, q, cursor, rows);
      assert IsNews(table, q, page, rows[q.limit]);
    }
    forall row | Selected(table, q, cursor, row) && !LeftForLater(page.next, row)
      ensures ShownAtOrAbove(page.items, row)
    {
      PageCovers(rows, page, q.limit, row);
    }
  }

  lemma PageMeaning(table: seq<Row>, q: Query, cursor: Option<Key>, page: Page)
    requires q.limit >= 1 && Answers(table, q, cursor, page)
    ensures PageIsSound(table, q, cursor, page)
  {
    hide Arranges, Fetched, FirstPerEvent, StandsFor, Lists, PageIsSound;
    var sorted :| Arranges(sorted, table, q, cursor) && page == Fetched(sorted, q.limit);
    hide *;
    var rows := FirstPerEvent(sorted);
    assert StandsFor(rows, sorted) by {
      FirstPerEventMeaning(sorted) by { SortedDescends(sorted, table, q, cursor); }
    }
    assert Lists(sorted, table, q, cursor) by {
      ListsArranged(sorted, table, q, cursor);
    }
    FetchedIs(sorted, q.limit);
    ShortenedPage(sorted, rows, page, table, q, cursor);
  }

  lemma SortedDescends(sorted: seq<Row>, table: seq<Row>, q: Query, cursor: Option<Key>)
    requires Arranges(sorted, table, q, cursor)
    ensures Descending(sorted)
  {
    hide Descending;
  }

  lemma FetchedIs(sorted: seq<Row>, limit: nat)
    ensures Fetched(sorted, limit) == PageOf(Take(FirstPerEvent(sorted), limit + 1), limit)
  {
    hide PageOf, Take, FirstPerEvent;
  }

  lemma ListsArranged(sorted: seq<Row>, table: seq<Row>, q: Query, cursor: Option<Key>)
    requires Arranges(sorted, table, q, cursor)
    ensures Lists(sorted, table, q, cursor)
  {
    hide Selected, Arranges;
    forall row
      ensures row in sorted <==> Selected(table, q, cursor, row)
    {
      ArrangedMember(sorted, table, q, cursor, row);
    }
  }

  // ----- The whole walk -----

  lemma StrictlyJoin(a: seq<Row>, b: seq<Row>, key: Key)
    requires StrictlyDescending(a) && StrictlyDescending(b)
    requires a != [] && key == a[|a| - 1].key
    requires forall row :: row in b ==> Below(row.key, key)
    ensures StrictlyDescending(a + b)
    ensures forall row :: row in a ==> !Below(row.key, key)
  {
    hide Below;
    var joined := a + b;
    forall i, j | 0 <= i < j < |joined|
      ensures Below(joined[j].key, joined[i].key)
    {
      if i < |a| <= j {
        assert joined[j] in b;
        if i < |a| - 1 {
          BelowTransitive(joined[j].key, key, a[i].key);
        }
      }
    }
    forall row | row in a
      ensures !Below(row.key, key)
    {
      BelowTotal(row.key, key);
    }
  }

  lemma SelectedNarrows(table: seq<Row>, q: Query, cursor: Option<Key>, next: Key, row: Row)
    requires Under(cursor, next)
    ensures Selected(table, q, Some(next), row) ==> Selected(table, q, cursor, row) && Below(row.key, next)
    ensures Selected(table, q, cursor, row) && Below(row.key, next) ==> Selected(table, q, Some(next), row)
  {
    hide Below;
    if cursor.Some? && Below(row.key, next) {
      BelowTransitive(row.key, next, cursor.value);
    }
  }

  /** What the first page of a walk and the pages after it have to do with each other. */
  lemma FirstPageSplits(table: seq<Row>, q: Query, cursor: Option<Key>, pages: seq<Page>)
    requires q.limit >= 1 && Walk(table, q, cursor, pages)
    ensures pages[0].next.None? ==> |pages| == 1
    ensures pages != [] && PageIsSound(table, q, cursor, pages[0])
    ensures pages[0].next.Some? ==> Walk(table, q, pages[0].next, pages[1..]) && Under(cursor, pages[0].next.value)
    ensures pages[0].next.None? ==> Items(pages) == pages[0].items
    ensures pages[0].next.Some? ==> Items(pages) == pages[0].items + Items(pages[1..])
  {
    hide Below, Matches, ShownAtOrAbove, StrictlyDescending, Answers;
    PageMeaning(table, q, cursor, pages[0]);
    if pages[0].next.Some? {
      assert pages[0].items[q.limit - 1] in pages[0].items;
    } else {
      assert pages[1..] == [];
    }
  }

  /**
   * Whatever the store answers, a reader who follows the cursors sees rows in strictly
   * descending order and sees every matching event, at a copy as new as any.
   */
  lemma {:induction false} WalkIsComplete(table: seq<Row>, q: Query, cursor: Option<Key>, pages: seq<Page>)
    requires q.limit >= 1 && Walk(table, q, cursor, pages)
    ensures StrictlyDescending(Items(pages))
    ensures forall row :: row in Items(pages) ==> Selected(table, q, cursor, row)
    ensures forall row :: Selected(table, q, cursor, row) ==> ShownAtOrAbove(Items(pages), row)
    decreases |pages|
  {
    hide Below, Matches, Under, Answers, StrictlyDescending, ShownAtOrAbove, Selected, Walk, Items;
    FirstPageSplits(table, q, cursor, pages);
    var page := pages[0];
    if page.next.Some? {
      var next := page.next.value;
      WalkIsComplete(table, q, page.next, pages[1..]);
      var rest := Items(pages[1..]);
      forall row
        ensures Selected(table, q, page.next, row) ==> Selected(table, q, cursor, row) && Below(row.key, next)
        ensures Selected(table, q, cursor, row) && Below(row.key, next) ==> Selected(table, q, page.next, row)
      {
        SelectedNarrows(table, q, cursor, next, row);
      }
      StrictlyJoin(page.items, rest, next);
      forall row | Selected(table, q, cursor, row)
        ensures ShownAtOrAbove(page.items + rest, row)
      {
        ShownJoin(page.items, rest, row);
      }
    }
  }

  lemma ShownJoin(a: seq<Row>, b: seq<Row>, row: Row)
    ensures ShownAtOrAbove(a, row) || ShownAtOrAbove(b, row) ==> ShownAtOrAbove(a + b, row)
  {
    hide Below, AtLeast;
    if ShownAtOrAbove(a, row) {
      var i :| 0 <= i < |a| && AtLeast(a[i], row);
      assert AtLeast((a + b)[i], row);
    } else if ShownAtOrAbove(b, row) {
      var i :| 0 <= i < |b| && AtLeast(b[i], row);
      assert AtLeast((a + b)[|a| + i], row);
    }
  }

  // ----- When an event is seen twice -----

  /** Matching copies of one event lie on both sides of the key. */
  predicate Straddles(table: seq<Row>, q: Query, key: Key, newer: Row, older: Row) {
    && Selected(table, q, None, newer) && Selected(table, q, None, older)
    && newer.key.eventId == older.key.eventId
    && !Below(newer.key, key) && Below(older.key, key)
  }

  /** Some page break of the walk falls between copies of one event. */
  ghost predicate BreaksAnEvent(table: seq<Row>, q: Query, pages: seq<Page>) {
    exists n, newer, older ::
      0 <= n < |pages| && pages[n].next.Some? && Straddles(table, q, pages[n].next.value, newer, older)
  }

  lemma SelectedAnywhere(table: seq<Row>, q: Query, cursor: Option<Key>, row: Row)
    requires Selected(table, q, cursor, row)
    ensures Selected(table, q, None, row)
    ensures cursor.Some? ==> Below(row.key, cursor.value)
  {
  }

  lemma {:induction false} RepeatMeansBreak(table: seq<Row>, q: Query, cursor: Option<Key>, pages: seq<Page>,
                                            i: nat, j: nat)
    requires q.limit >= 1 && Walk(table, q, cursor, pages)
    requires i < j < |Items(pages)| && Items(pages)[i].key.eventId == Items(pages)[j].key.eventId
    ensures BreaksAnEvent(table, q, pages)
    decreases |pages|
  {
    hide Below, Matches, Under, Answers, StrictlyDescending, ShownAtOrAbove, Selected, Walk, Items, Straddles;
    FirstPageSplits(table, q, cursor, pages);
    var page := pages[0];
    var a := page.items;
    if page.next.Some? {
      var b := Items(pages[1..]);
      if i < |a| <= j {
        WalkIsComplete(table, q, page.next, pages[1..]);
        assert a[i] in a && b[j - |a|] in b;
        SelectedAnywhere(table, q, cursor, a[i]);
        SelectedAnywhere(table, q, page.next, b[j - |a|]);
        StrictlyJoin(a, b, page.next.value) by {
          forall row | row in b
            ensures Below(row.key, page.next.value)
          {
            SelectedAnywhere(table, q, page.next, row);
          }
        }
        assert Straddles(table, q, pages[0].next.value, a[i], b[j - |a|]) by {
          hide *;
          StraddlesWhen(table, q, pages[0].next.value, a[i], b[j - |a|]);
        }
      } else if |a| <= i {
        RepeatMeansBreak(table, q, page.next, pages[1..], i - |a|, j - |a|);
        var n, newer, older :|
          && 0 <= n < |pages[1..]| && pages[1..][n].next.Some?
          && Straddles(table, q, pages[1..][n].next.value, newer, older);
        assert pages[n + 1] == pages[1..][n];
      }
    }
  }

  lemma StraddlesWhen(table: seq<Row>, q: Query, key: Key, newer: Row, older: Row)
    requires Selected(table, q, None, newer) && Selected(table, q, None, older)
    requires newer.key.eventId == older.key.eventId
    requires !Below(newer.key, key) && Below(older.key, key)
    ensures Straddles(table, q, key, newer, older)
  {
  }

  lemma {:induction false} CursorsDescend(table: seq<Row>, q: Query, cursor: Option<Key>, pages: seq<Page>, n: nat)
    requires q.limit >= 1 && Walk(table, q, cursor, pages)
    requires n < |pages| && pages[n].next.Some?
    ensures Under(cursor, pages[n].next.value)
    decreases n
  {
    hide Below, Matches, Answers, StrictlyDescending, ShownAtOrAbove, Selected, Walk, Items;
    FirstPageSplits(table, q, cursor, pages);
    if n > 0 && pages[0].next.Some? {
      CursorsDescend(table, q, pages[0].next, pages[1..], n - 1);
      if cursor.Some? {
        BelowTransitive(pages[n].next.value, pages[0].next.value, cursor.value);
      }
    }
  }

  lemma {:induction false} BreakMeansRepeat(table: seq<Row>, q: Query, cursor: Option<Key>, pages: seq<Page>,
                                            n: nat, newer: Row, older: Row)
    requires q.limit >= 1 && Walk(table, q, cursor, pages)
    requires n < |pages| && pages[n].next.Some? && Straddles(table, q, pages[n].next.value, newer, older)
    requires Selected(table, q, cursor, newer)
    ensures !DistinctEvents(Items(pages))
    decreases |pages|
  {
    hide Below, Matches, Answers, StrictlyDescending, Selected, Walk, Items;
    FirstPageSplits(table, q, cursor, pages);
    var page := pages[0];
    if page.next.Some? {
      var a, b := page.items, Items(pages[1..]);
      var next := page.next.value;
      WalkIsComplete(table, q, page.next, pages[1..]);
      SelectedNarrows(table, q, cursor, next, newer);
      if Below(newer.key, next) {
        assert n > 0;
        BreakMeansRepeat(table, q, page.next, pages[1..], n - 1, newer, older);
        DistinctTail(a, b);
      } else {
        if n > 0 {
          CursorsDescend(table, q, page.next, pages[1..], n - 1);
          BelowTransitive(older.key, pages[n].next.value, next);
        }
        SelectedNarrows(table, q, None, next, older);
        var i :| 0 <= i < |a| && AtLeast(a[i], newer);
        var j :| 0 <= j < |b| && AtLeast(b[j], older);
        assert (a + b)[i] == a[i] && (a + b)[|a| + j] == b[j];
      }
    }
  }

  lemma DistinctTail(a: seq<Row>, b: seq<Row>)
    ensures DistinctEvents(a + b) ==> DistinctEvents(b)
  {
    if DistinctEvents(a + b) {
      forall i, j | 0 <= i < j < |b|
        ensures b[i].key.eventId != b[j].key.eventId
      {
        assert (a + b)[|a| + i] == b[i] && (a + b)[|a| + j] == b[j];
      }
    }
  }

  /**
   * A reader sees an event twice exactly when a page break falls between copies of one
   * event that differ in their time.
   */
  lemma SeenTwiceExactly(table: seq<Row>, q: Query, pages: seq<Page>)
    requires q.limit >= 1 && Walk(table, q, None, pages)
    ensures DistinctEvents(Items(pages)) <==> !BreaksAnEvent(table, q, pages)
  {
    hide Below, Matches, Under, Answers, Selected, Walk, Items;
    if !DistinctEvents(Items(pages)) {
      var i, j :| 0 <= i < j < |Items(pages)| && Items(pages)[i].key.eventId == Items(pages)[j].key.eventId;
      RepeatMeansBreak(table, q, None, pages, i, j);
    }
    if BreaksAnEvent(table, q, pages) {
      var n, newer, older :|
        0 <= n < |pages| && pages[n].next.Some? && Straddles(table, q, pages[n].next.value, newer, older);
      BreakMeansRepeat(table, q, None, pages, n, newer, older);
    }
  }

  // ----- When a table can show an event twice -----

  /**
   * Copies of one event at two keys, and a row of another event below the newer copy:
   * what a page break needs to fall between the copies.
   */
  predicate Divides(table: seq<Row>, q: Query, newer: Row, older: Row, other: Row) {
    && Selected(table, q, None, newer) && Selected(table, q, None, older) && Selected(table, q, None, other)
    && newer.key.eventId == older.key.eventId && other.key.eventId != newer.key.eventId
    && Below(older.key, newer.key) && Below(other.key, newer.key)
  }

  ghost predicate Divisible(table: seq<Row>, q: Query) {
    exists newer, older, other :: Divides(table, q, newer, older, other)
  }

  /** A page that breaks an event shows a third row, on it or after it. */
  lemma BreakNeedsOther(table: seq<Row>, q: Query, cursor: Option<Key>, page: Page, newer: Row, older: Row)
    requires PageIsSound(table, q, cursor, page) && page.next.Some?
    requires Straddles(table, q, page.next.value, newer, older)
    ensures Divisible(table, q)
  {
    var k, last := page.next.value, page.items[q.limit - 1];
    assert last in page.items;
    SelectedAnywhere(table, q, cursor, last);
    BelowTotal(newer.key, k);
    if last.key.eventId != newer.key.eventId {
      BelowTransitive(older.key, k, newer.key);
      assert Divides(table, q, newer, older, last);
    } else {
      var row :| IsNews(table, q, page, row);
      SelectedAnywhere(table, q, page.next, row);
      assert Divides(table, q, last, older, row);
    }
  }

  lemma {:induction false} BreakMeansDivisible(table: seq<Row>, q: Query, cursor: Option<Key>, pages: seq<Page>,
                                               n: nat, newer: Row, older: Row)
    requires q.limit >= 1 && Walk(table, q, cursor, pages)
    requires n < |pages| && pages[n].next.Some? && Straddles(table, q, pages[n].next.value, newer, older)
    ensures Divisible(table, q)
    decreases n
  {
    hide PageIsSound, Straddles, Divisible, Walk, Items;
    FirstPageSplits(table, q, cursor, pages);
    if n == 0 {
      BreakNeedsOther(table, q, cursor, pages[0], newer, older);
    } else {
      BreakMeansDivisible(table, q, pages[0].next, pages[1..], n - 1, newer, older);
    }
  }

  /** A page of one row that shows two rows of different events leaves one for later. */
  lemma SingleShown(items: seq<Row>, row: Row)
    requires |items| <= 1 && ShownAtOrAbove(items, row)
    ensures |items| == 1 && AtLeast(items[0], row)
  {
  }

  /** With pages of one row, the page that shows the newer copy breaks the event. */
  lemma {:induction false} SingleRowsBreak(table: seq<Row>, q: Query, cursor: Option<Key>, pages: seq<Page>,
                                           newer: Row, older: Row, other: Row)
    requires q.limit == 1 && Walk(table, q, cursor, pages)
    requires Divides(table, q, newer, older, other) && Selected(table, q, cursor, newer)
    ensures BreaksAnEvent(table, q, pages)
    decreases |pages|
  {
    hide Walk, Items, Below, Matches, ShownAtOrAbove;
    FirstPageSplits(table, q, cursor, pages);
    var page := pages[0];
    if cursor.Some? {
      BelowTransitive(other.key, newer.key, cursor.value);
    }
    if page.next.None? {
      SingleShown(page.items, newer);
      SingleShown(page.items, other);
    } else {
      var k := page.next.value;
      if Below(newer.key, k) {
        SingleRowsBreak(table, q, page.next, pages[1..], newer, older, other);
        var n, a, b :|
          && 0 <= n < |pages[1..]| && pages[1..][n].next.Some?
          && Straddles(table, q, pages[1..][n].next.value, a, b);
        assert pages[n + 1] == pages[1..][n];
      } else {
        SingleShown(page.items, newer);
        BelowTotal(newer.key, k);
        assert Straddles(table, q, pages[0].next.value, newer, older);
      }
    }
  }

  /**
   * Some page size and walk show an event twice exactly when the table holds matching
   * copies of an event at two keys and a matching row of another event below the newer.
   */
  lemma RepeatsExactly(table: seq<Row>, q: Query)
    ensures (exists limit: nat, pages :: Repeats(table, q, limit, pages)) <==> Divisible(table, q)
  {
    hide Walk, Items, DistinctEvents, Divides, BreaksAnEvent;
    forall limit: nat, pages | Repeats(table, q, limit, pages)
      ensures Divisible(table, q)
    {
      var r := q.(limit := limit);
      SeenTwiceExactly(table, r, pages);
      BreaksDivide(table, r, pages);
      SameDivisible(table, q, limit);
    }
    if Divisible(table, q) {
      var newer, older, other :| Divides(table, q, newer, older, other);
      var r := q.(limit := 1);
      SameDivides(table, q, 1, newer, older, other);
      var pages := WalkExists(table, r, None);
      assert Selected(table, r, None, newer) by { DividesSelected(table, r, newer, older, other); }
      SingleRowsBreak(table, r, None, pages, newer, older, other);
      SeenTwiceExactly(table, r, pages);
      assert Repeats(table, q, 1, pages);
    }
  }

  /** A reader with this page size has seen an event twice. */
  ghost predicate Repeats(table: seq<Row>, q: Query, limit: nat, pages: seq<Page>) {
    limit >= 1 && Walk(table, q.(limit := limit), None, pages) && !DistinctEvents(Items(pages))
  }

  lemma BreaksDivide(table: seq<Row>, q: Query, pages: seq<Page>)
    requires q.limit >= 1 && Walk(table, q, None, pages) && BreaksAnEvent(table, q, pages)
    ensures Divisible(table, q)
  {
    hide Walk, Straddles, Divisible;
    var n, newer, older :|
      0 <= n < |pages| && pages[n].next.Some? && Straddles(table, q, pages[n].next.value, newer, older);
    BreakMeansDivisible(table, q, None, pages, n, newer, older);
  }

  /** The page size plays no part in it. */
  lemma SameDivides(table: seq<Row>, q: Query, limit: nat, newer: Row, older: Row, other: Row)
    ensures Divides(table, q.(limit := limit), newer, older, other) <==> Divides(table, q, newer, older, other)
  {
    hide Below;
  }

  lemma SameDivisible(table: seq<Row>, q: Query, limit: nat)
    ensures Divisible(table, q.(limit := limit)) ==> Divisible(table, q)
  {
    hide Divides;
    var r := q.(limit := limit);
    if Divisible(table, r) {
      var newer, older, other :| Divides(table, r, newer, older, other);
      SameDivides(table, q, limit, newer, older, other);
    }
  }

  lemma DividesSelected(table: seq<Row>, q: Query, newer: Row, older: Row, other: Row)
    requires Divides(table, q, newer, older, other)
    ensures Selected(table, q, None, newer)
  {
  }

  /** The assumption the paging rests on: copies of an event carry one timestamp. */
  predicate OneTimestampPerEvent(table: seq<Row>) {
    forall a, b :: a in table && b in table && a.key.eventId == b.key.eventId ==> a.key == b.key
  }

  /**
   * With one timestamp per event the pages show exactly the matching events, each once,
   * in strictly descending order.
   */
  lemma PagesShowEveryEventOnce(table: seq<Row>, q: Query, pages: seq<Page>)
    requires q.limit >= 1 && OneTimestampPerEvent(table) && Walk(table, q, None, pages)
    ensures StrictlyDescending(Items(pages)) && DistinctEvents(Items(pages))
    ensures forall row :: row in Items(pages) ==> row in table && Matches(q, row)
    ensures forall row :: row in table && Matches(q, row)
              ==> HasKey(Items(pages), row.key)
  {
    hide Below, Matches, Answers, Walk, Items, StrictlyDescending;
    WalkIsComplete(table, q, None, pages);
    SeenTwiceExactly(table, q, pages);
    var items := Items(pages);
    forall row | row in table && Matches(q, row)
      ensures HasKey(items, row.key)
    {
      assert Selected(table, q, None, row);
      var i :| 0 <= i < |items| && AtLeast(items[i], row);
      assert items[i] in items;
    }
    forall n, newer, older | 0 <= n < |pages| && pages[n].next.Some?
      ensures !Straddles(table, q, pages[n].next.value, newer, older)
    {
    }
  }

  predicate HasKey(rows: seq<Row>, key: Key) {
    exists i :: 0 <= i < |rows| && rows[i].key == key
  }

  predicate Covers(a: seq<Row>, b: seq<Row>) {
    forall i :: 0 <= i < |a| ==> HasKey(b, a[i].key)
  }

  lemma TailCovered(a: seq<Row>, b: seq<Row>)
    requires StrictlyDescending(a) && Covers(a, b) && a != [] && b != [] && a[0].key == b[0].key
    ensures Covers(a[1..], b[1..])
  {
    hide Below;
    forall i | 0 <= i < |a[1..]|
      ensures HasKey(b[1..], a[1..][i].key)
    {
      assert HasKey(b, a[i + 1].key);
      var j :| 0 <= j < |b| && b[j].key == a[i + 1].key;
      BelowTotal(a[0].key, a[i + 1].key);
      assert b[1..][j - 1] == b[j];
    }
  }

  lemma {:induction false} DescendingKeysUnique(a: seq<Row>, b: seq<Row>)
    requires StrictlyDescending(a) && StrictlyDescending(b) && Covers(a, b) && Covers(b, a)
    ensures |a| == |b| && forall i :: 0 <= i < |a| ==> a[i].key == b[i].key
  {
    hide Below;
    if a != [] {
      assert HasKey(b, a[0].key);
    }
    if b != [] {
      assert HasKey(a, b[0].key);
      var i :| 0 <= i < |a| && a[i].key == b[0].key;
      assert HasKey(b, a[0].key);
      var j :| 0 <= j < |b| && b[j].key == a[0].key;
      BelowTotal(a[0].key, b[0].key);
      TailCovered(a, b);
      TailCovered(b, a);
      DescendingKeysUnique(a[1..], b[1..]);
      forall k | 0 <= k < |a|
        ensures a[k].key == b[k].key
      {
        if k > 0 {
          assert a[k] == a[1..][k - 1] && b[k] == b[1..][k - 1];
        }
      }
    }
  }

  /** So the list a reader ends up with does not depend on the page size. */
  lemma PageSizeDoesNotMatter(table: seq<Row>, q: Query, limit: nat, pages: seq<Page>, others: seq<Page>)
    requires q.limit >= 1 && limit >= 1 && OneTimestampPerEvent(table)
    requires Walk(table, q, None, pages) && Walk(table, q.(limit := limit), None, others)
    ensures |Items(pages)| == |Items(others)|
    ensures forall i :: 0 <= i < |Items(pages)| ==> Items(pages)[i].key == Items(others)[i].key
  {
    hide Below, Answers, Walk, Items, StrictlyDescending, DistinctEvents, OneTimestampPerEvent;
    var r := q.(limit := limit);
    PagesShowEveryEventOnce(table, q, pages);
    PagesShowEveryEventOnce(table, r, others);
    assert forall row :: Matches(q, row) == Matches(r, row);
    var a, b := Items(pages), Items(others);
    forall i | 0 <= i < |a|
      ensures HasKey(b, a[i].key)
    {
      assert a[i] in a;
    }
    forall i | 0 <= i < |b|
      ensures HasKey(a, b[i].key)
    {
      assert b[i] in b;
    }
    DescendingKeysUnique(a, b);
  }

  /** Copies with different times are shown twice: A at 10 and 5, B at 7, one row a page. */
  lemma RepeatIsReachable() returns (table: seq<Row>, q: Query, pages: seq<Page>)
    ensures q.limit == 1 && Walk(table, q, None, pages) && !DistinctEvents(Items(pages))
  {
    hide Walk, Items, DistinctEvents, BreaksAnEvent;
    var newer, other, older := Row(Key(10, "A"), map[]), Row(Key(7, "B"), map[]), Row(Key(5, "A"), map[]);
    table := [newer, other, older];
    q := Query(0, 20, _ => true, 1);
    assert "A"[0] != "B"[0];
    assert Divides(table, q, newer, older, other);
    pages := WalkExists(table, q, None);
    SingleRowsBreak(table, q, None, pages, newer, older, other);
    SeenTwiceExactly(table, q, pages);
  }

  // ----- The walk ends -----

  function Remaining(table: seq<Row>, q: Query, cursor: Option<Key>): nat {
    |Filter(Where(q, cursor), table)|
  }

  lemma {:induction false} FilterShrinks(keep: Row -> bool, fewer: Row -> bool, s: seq<Row>)
    requires forall row :: row in s && fewer(row) ==> keep(row)
    ensures |Filter(fewer, s)| <= |Filter(keep, s)|
    ensures (exists row :: row in s && keep(row) && !fewer(row)) ==> |Filter(fewer, s)| < |Filter(keep, s)|
  {
    if s != [] {
      FilterShrinks(keep, fewer, s[1..]);
    }
  }

  /** Every page with a cursor leaves fewer rows for the pages after it. */
  lemma PageMakesProgress(table: seq<Row>, q: Query, cursor: Option<Key>, page: Page)
    requires q.limit >= 1 && Answers(table, q, cursor, page) && page.next.Some?
    ensures Remaining(table, q, page.next) < Remaining(table, q, cursor)
  {
    hide Below, Matches, Answers, StrictlyDescending, ShownAtOrAbove, Filter;
    PageMeaning(table, q, cursor, page);
    var last := page.items[q.limit - 1];
    assert last in page.items && Selected(table, q, cursor, last);
    BelowTotal(last.key, last.key);
    forall row | row in table && Where(q, page.next)(row)
      ensures Where(q, cursor)(row)
    {
      SelectedNarrows(table, q, cursor, last.key, row);
    }
    FilterShrinks(Where(q, cursor), Where(q, page.next), table);
  }

  lemma DescendingTotal()
    ensures TotalPreorder((a: Row, b: Row) => !Below(a.key, b.key))
  {
    hide Below;
    var le := (a: Row, b: Row) => !Below(a.key, b.key);
    forall x, y
      ensures le(x, y) || le(y, x)
    {
      BelowTotal(x.key, y.key);
    }
    forall x, y, z | le(x, y) && le(y, z)
      ensures le(x, z)
    {
      NotBelowTransitive(x.key, y.key, z.key);
    }
  }

  /** The store always has an answer. */
  lemma AnswerExists(table: seq<Row>, q: Query, cursor: Option<Key>) returns (page: Page)
    ensures Answers(table, q, cursor, page)
  {
    hide Below, Matches, Filter, FirstPerEvent;
    var le := (a: Row, b: Row) => !Below(a.key, b.key);
    var rows := Filter(Where(q, cursor), table);
    DescendingTotal();
    SortOrdered(le, rows);
    SortPermutes(le, rows);
    var sorted := SortBy(le, rows);
    assert Arranges(sorted, table, q, cursor);
    page := Fetched(sorted, q.limit);
  }

  /** Every page is answered at the cursor of the page before it. */
  ghost predicate Follows(table: seq<Row>, q: Query, cursor: Option<Key>, pages: seq<Page>)
    decreases |pages|
  {
    pages != [] ==>
      && Answers(table, q, cursor, pages[0])
      && (|pages| > 1 ==> pages[0].next.Some? && Follows(table, q, pages[0].next, pages[1..]))
  }

  /** However the store answers, no reader gets more pages than there are matching rows, plus one. */
  lemma {:induction false} ReadersFinish(table: seq<Row>, q: Query, cursor: Option<Key>, pages: seq<Page>)
    requires q.limit >= 1 && Follows(table, q, cursor, pages)
    ensures |pages| <= Remaining(table, q, cursor) + 1
    decreases |pages|
  {
    hide Answers, Remaining;
    if |pages| > 1 {
      PageMakesProgress(table, q, cursor, pages[0]);
      ReadersFinish(table, q, pages[0].next, pages[1..]);
    }
  }

  /** And a walk to the end always exists. */
  lemma {:induction false} WalkExists(table: seq<Row>, q: Query, cursor: Option<Key>) returns (pages: seq<Page>)
    requires q.limit >= 1
    ensures Walk(table, q, cursor, pages)
    decreases Remaining(table, q, cursor)
  {
    hide Answers, Remaining;
    var page := AnswerExists(table, q, cursor);
    if page.next.None? {
      pages := [page];
    } else {
      PageMakesProgress(table, q, cursor, page);
      var rest := WalkExists(table, q, page.next);
      pages := [page] + rest;
    }
  }
}
