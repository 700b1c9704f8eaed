/** A subject's timeline, read in pages while decisions keep being stored. */
module Timeline {
  import opened Wrappers
  import opened Identity
  import opened Sorting

  datatype Row = Row(decisionId: nat, reasonerId: string, entityId: EntityId, createdAt: int)

  /** Decision ids are the table's key. */
  ghost predicate Keyed(table: seq<Row>) {
    forall i, j :: 0 <= i < j < |table| ==> table[i].decisionId != table[j].decisionId
  }

  /** What a reader asks for, page after page: the linked ids, a reasoner or any, and a page size. */
  datatype Query = Query(linked: set<EntityId>, reasoner: Option<string>, limit: nat)

  datatype Cursor = Cursor(before: Option<int>, beforeId: Option<nat>)

  const START := Cursor(None, None)

  function CursorAt(r: Row): Cursor { Cursor(Some(r.createdAt), Some(r.decisionId)) }

  predicate Asked(q: Query, r: Row) {
    r.entityId in q.linked && (q.reasoner.Some? ==> r.reasonerId == q.reasoner.value)
  }

  predicate PastCursor(c: Cursor, r: Row) {
    || c.before.None?
    || r.createdAt < c.before.value
    || (r.createdAt == c.before.value && c.beforeId.Some? && r.decisionId < c.beforeId.value)
  }

  function Newest(): (Row, Row) -> bool {
    (a: Row, b: Row) => a.createdAt > b.createdAt || (a.createdAt == b.createdAt && a.decisionId >= b.decisionId)
  }

  /** `a` stands before `b` in the timeline. */
  predicate Newer(a: Row, b: Row) {
    a.createdAt > b.createdAt || (a.createdAt == b.createdAt && a.decisionId > b.decisionId)
  }

  function Matching(table: seq<Row>, q: Query, c: Cursor): (r: seq<Row>)
    ensures forall x :: x in r <==> x in table && Asked(q, x) && PastCursor(c, x)
  {
    if table == [] then []
    else
      assert table == [table[0]] + table[1..];
      (if Asked(q, table[0]) && PastCursor(c, table[0]) then [table[0]] else []) + Matching(table[1..], q, c)
  }

  /** Every matching row past the cursor, newest first. */
  function Ordered(table: seq<Row>, q: Query, c: Cursor): (r: seq<Row>)
    ensures |r| == |Matching(table, q, c)|
  {
    Sort(Newest(), Matching(table, q, c))
  }

  function Take(rows: seq<Row>, limit: nat): seq<Row> { if |rows| <= limit then rows else rows[..limit] }

  /** One page: the newest matching rows past the cursor, at most the limit. */
  function Page(table: seq<Row>, q: Query, c: Cursor): seq<Row> { Take(Ordered(table, q, c), q.limit) }

  ghost predicate Descending(rows: seq<Row>) {
    forall i, j :: 0 <= i < j < |rows| ==> Newer(rows[i], rows[j])
  }

  lemma {:induction false} MatchingKeyed(table: seq<Row>, q: Query, c: Cursor)
    requires Keyed(table)
    ensures Keyed(Matching(table, q, c))
  {
    if table != [] {
      var rest := Matching(table[1..], q, c);
      MatchingKeyed(table[1..], q, c);
      forall i | 0 <= i < |rest| ensures rest[i].decisionId != table[0].decisionId {
        assert rest[i] in table[1..];
        var k :| 0 <= k < |table[1..]| && table[1..][k] == rest[i];
        assert table[0].decisionId != table[k + 1].decisionId;
      }
    }
  }

  lemma SortedDescends(rows: seq<Row>)
    requires Keyed(rows)
    ensures Descending(Sort(Newest(), rows))
  {
    var sorted := Sort(Newest(), rows);
    SortSorts(Newest(), rows);
    SortKeepsElements(Newest(), rows);
    SortKeepsDistinct(Newest(), rows);
    forall i, j | 0 <= i < j < |sorted| ensures Newer(sorted[i], sorted[j]) {
      assert Newest()(sorted[i], sorted[j]);
      assert sorted[i] in rows && sorted[j] in rows;
      var a :| 0 <= a < |rows| && rows[a] == sorted[i];
      var b :| 0 <= b < |rows| && rows[b] == sorted[j];
      assert a != b;
      assert a < b || b < a;
    }
  }

  lemma OrderedFacts(table: seq<Row>, q: Query, c: Cursor)
    requires Keyed(table)
    ensures Descending(Ordered(table, q, c))
    ensures forall r :: r in Ordered(table, q, c) <==> r in table && Asked(q, r) && PastCursor(c, r)
  {
    MatchingKeyed(table, q, c);
    SortedDescends(Matching(table, q, c));
    SortKeepsElements(Newest(), Matching(table, q, c));
  }

  /** What taking the first rows leaves is past the last one taken. */
  lemma TakeLeaves(rows: seq<Row>, limit: nat)
    requires Descending(rows) && limit > 0
    ensures Descending(Take(rows, limit)) && |Take(rows, limit)| <= limit
    ensures forall r :: r in Take(rows, limit) ==> r in rows
    ensures forall r :: r in rows ==>
              r in Take(rows, limit) || (|Take(rows, limit)| == limit && Newer(Take(rows, limit)[limit - 1], r))
  {
    var page := Take(rows, limit);
    forall r | r in rows && r !in page ensures |page| == limit && Newer(page[limit - 1], r) {
      assert forall i :: 0 <= i < |page| ==> page[i] in page && page[i] == rows[i];
      var i :| 0 <= i < |rows| && rows[i] == r;
      assert i >= |page|;
    }
  }

  /** A page descends, holds only what was asked for, and leaves out nothing but rows past its last. */
  ghost predicate ExactPage(table: seq<Row>, q: Query, c: Cursor, page: seq<Row>) {
    && Descending(page) && |page| <= q.limit
    && (forall r :: r in page ==> r in table && Asked(q, r) && PastCursor(c, r))
    && (|page| < q.limit ==> forall r :: r in table && Asked(q, r) && PastCursor(c, r) ==> r in page)
    && (|page| == q.limit > 0 ==>
          forall r :: r in table && Asked(q, r) && PastCursor(c, r) ==>
            r in page || PastCursor(CursorAt(page[q.limit - 1]), r))
  }

  /** The row is of a linked subject and, when one is asked for, of that reasoner. */
  predicate Wanted(q: Query, r: Row) {
    r.entityId in q.linked && match q.reasoner case None => true case Some(id) => r.reasonerId == id
  }

  /** The row comes after the decision seen: earlier, or of the same instant with a lesser id; without
      that decision's id, nothing of its instant does; without a cursor, everything does. */
  predicate ComesAfter(r: Row, before: Option<int>, beforeId: Option<nat>) {
    match (before, beforeId)
    case (None, _) => true
    case (Some(at), None) => r.createdAt < at
    case (Some(at), Some(id)) => if r.createdAt == at then r.decisionId < id else r.createdAt < at
  }

  /** At most `limit` wanted rows after the cursor, newest first, each row after the one before it, and
      every other such row after the last; one is left out only of a full page. */
  ghost predicate IsPage(table: seq<Row>, q: Query, before: Option<int>, beforeId: Option<nat>, page: seq<Row>) {
    && |page| <= q.limit
    && (forall r :: r in page ==> r in table && Wanted(q, r) && ComesAfter(r, before, beforeId))
    && (forall i, j :: 0 <= i < j < |page| ==>
          ComesAfter(page[j], Some(page[i].createdAt), Some(page[i].decisionId)))
    && (forall r, p :: r in table && Wanted(q, r) && ComesAfter(r, before, beforeId) && r !in page && p in page ==>
          ComesAfter(r, Some(p.createdAt), Some(p.decisionId)))
    && (forall r :: r in table && Wanted(q, r) && ComesAfter(r, before, beforeId) && r !in page ==>
          |page| == q.limit)
  }

  lemma PageIsExact(table: seq<Row>, q: Query, c: Cursor)
    requires Keyed(table) && q.limit > 0
    ensures ExactPage(table, q, c, Page(table, q, c))
    ensures IsPage(table, q, c.before, c.beforeId, Page(table, q, c))
  {
    OrderedFacts(table, q, c);
    TakeLeaves(Ordered(table, q, c), q.limit);
    ExactIsPage(table, q, c, Page(table, q, c));
  }

  lemma ExactIsPage(table: seq<Row>, q: Query, c: Cursor, page: seq<Row>)
    requires ExactPage(table, q, c, page) && q.limit > 0
    ensures IsPage(table, q, c.before, c.beforeId, page)
  {
    forall r ensures (Wanted(q, r) <==> Asked(q, r)) && (ComesAfter(r, c.before, c.beforeId) <==> PastCursor(c, r)) {}
    forall r, p | r in table && Asked(q, r) && PastCursor(c, r) && r !in page && p in page
      ensures ComesAfter(r, Some(p.createdAt), Some(p.decisionId))
    {
      var i :| 0 <= i < |page| && page[i] == p;
      assert i < q.limit - 1 ==> Newer(page[i], page[q.limit - 1]);
    }
  }

  // --- walking ------------------------------------------------------------------------------------

  ghost predicate Within(table: seq<Row>, later: seq<Row>) { forall r :: r in table ==> r in later }

  /** The table at each page's read: decisions are only ever added. */
  ghost predicate Growing(tables: seq<seq<Row>>) {
    && (forall i :: 0 <= i < |tables| ==> Keyed(tables[i]))
    && (forall i, j :: 0 <= i < j < |tables| ==> Within(tables[i], tables[j]))
  }

  /** Reads a page of the table as it stands. */
  type Reader = (seq<Row>, Cursor) -> seq<Row>

  function Pages(q: Query): Reader { (table: seq<Row>, c: Cursor) => Page(table, q, c) }

  ghost predicate Exact(read: Reader, q: Query) {
    forall table, c :: Keyed(table) ==> ExactPage(table, q, c, read(table, c))
  }

  lemma PagesAreExact(q: Query)
    requires q.limit > 0
    ensures Exact(Pages(q), q)
  {
    forall table, c | Keyed(table) ensures ExactPage(table, q, c, Pages(q)(table, c)) { PageIsExact(table, q, c); }
  }

  function Last(page: seq<Row>): Cursor
    requires page != []
  {
    CursorAt(page[|page| - 1])
  }

  /** Everything read, page after page, each from the last row of the one before. */
  function Walk(read: Reader, tables: seq<seq<Row>>, c: Cursor): seq<Row>
    decreases |tables|
  {
    if tables == [] then []
    else
      var page := read(tables[0], c);
      if page == [] then [] else page + Walk(read, tables[1..], Last(page))
  }

  /** The walk met a page that was not full. */
  predicate Finishes(read: Reader, tables: seq<seq<Row>>, limit: nat, c: Cursor)
    decreases |tables|
  {
    tables != [] &&
    var page := read(tables[0], c);
    |page| < limit || (page != [] && Finishes(read, tables[1..], limit, Last(page)))
  }

  lemma {:induction false} WalkFrom(read: Reader, tables: seq<seq<Row>>, q: Query, c: Cursor)
    requires Growing(tables) && q.limit > 0 && Exact(read, q)
    ensures Descending(Walk(read, tables, c))
    ensures forall r :: r in Walk(read, tables, c) ==> Asked(q, r) && PastCursor(c, r) && r in tables[|tables| - 1]
    ensures Finishes(read, tables, q.limit, c) ==>
              forall r :: r in tables[0] && Asked(q, r) && PastCursor(c, r) ==> r in Walk(read, tables, c)
    decreases |tables|
  {
    if tables == [] { return; }
    var page := read(tables[0], c);
    assert ExactPage(tables[0], q, c, page);
    if page == [] { return; }
    TailGrows(tables);
    WalkFrom(read, tables[1..], q, Last(page));
    var rest := Walk(read, tables[1..], Last(page));
    PageThenRest(tables, q, c, page, rest);
    if Finishes(read, tables, q.limit, c) {
      if |page| == q.limit {
        assert Finishes(read, tables[1..], q.limit, Last(page));
        NextTable(tables);
      }
      NothingMissed(tables, q, c, page, rest);
    }
  }

  lemma NextTable(tables: seq<seq<Row>>)
    requires Growing(tables) && |tables| > 1
    ensures tables[1..][0] == tables[1]
  {
  }

  lemma PageThenRest(tables: seq<seq<Row>>, q: Query, c: Cursor, page: seq<Row>, rest: seq<Row>)
    requires Growing(tables) && tables != [] && page != [] && ExactPage(tables[0], q, c, page) && Descending(rest)
    requires forall r :: r in rest ==> Asked(q, r) && PastCursor(Last(page), r) && r in tables[|tables| - 1]
    ensures Descending(page + rest)
    ensures forall r :: r in page + rest ==> Asked(q, r) && PastCursor(c, r) && r in tables[|tables| - 1]
  {
    PagesDescend(page, rest);
    assert |tables| > 1 ==> Within(tables[0], tables[|tables| - 1]);
    assert page[|page| - 1] in page;
  }

  lemma NothingMissed(tables: seq<seq<Row>>, q: Query, c: Cursor, page: seq<Row>, rest: seq<Row>)
    requires Growing(tables) && tables != [] && page != [] && ExactPage(tables[0], q, c, page)
    requires |page| == q.limit ==>
               (|tables| > 1 && forall r :: r in tables[1] && Asked(q, r) && PastCursor(Last(page), r) ==> r in rest)
    ensures forall r :: r in tables[0] && Asked(q, r) && PastCursor(c, r) ==> r in page + rest
  {
    if |page| == q.limit { assert Within(tables[0], tables[1]); }
  }

  /** A page, and rows all past its last, descend together. */
  lemma PagesDescend(page: seq<Row>, rest: seq<Row>)
    requires page != [] && Descending(page) && Descending(rest)
    requires forall r :: r in rest ==> PastCursor(Last(page), r)
    ensures Descending(page + rest)
  {
    forall i, j | 0 <= i < |page| && 0 <= j < |rest| ensures Newer(page[i], rest[j]) {
      assert rest[j] in rest;
      assert i < |page| - 1 ==> Newer(page[i], page[|page| - 1]);
    }
    DescendingAppend(page, rest);
  }

  lemma DescendingAppend(a: seq<Row>, b: seq<Row>)
    requires Descending(a) && Descending(b)
    requires forall i, j :: 0 <= i < |a| && 0 <= j < |b| ==> Newer(a[i], b[j])
    ensures Descending(a + b)
  {
  }

  lemma TailGrows(tables: seq<seq<Row>>)
    requires Growing(tables) && tables != []
    ensures Growing(tables[1..])
    ensures |tables| > 1 ==> tables[1..][|tables[1..]| - 1] == tables[|tables| - 1]
  {
    forall i, j | 0 <= i < j < |tables[1..]| ensures Within(tables[1..][i], tables[1..][j]) {
      assert Within(tables[i + 1], tables[j + 1]);
    }
  }

  /** Walking the timeline to its end while decisions keep arriving yields rows in strictly descending
      order, so none twice; every matching row that was there at the start; and only matching rows. */
  lemma WalkIsComplete(tables: seq<seq<Row>>, q: Query)
    requires Growing(tables) && q.limit > 0 && Finishes(Pages(q), tables, q.limit, START)
    ensures var walk := Walk(Pages(q), tables, START);
            && (forall i, j :: 0 <= i < j < |walk| ==>
                  ComesAfter(walk[j], Some(walk[i].createdAt), Some(walk[i].decisionId)))
            && (forall r :: r in tables[0] && Wanted(q, r) ==> multiset(walk)[r] == 1)
            && (forall r :: r in walk ==> Wanted(q, r) && r in tables[|tables| - 1])
  {
    PagesAreExact(q);
    WalkFrom(Pages(q), tables, q, START);
    var walk := Walk(Pages(q), tables, START);
    forall r ensures Wanted(q, r) <==> Asked(q, r) {}
    forall i, j | 0 <= i < j < |walk|
      ensures walk[i] != walk[j] && ComesAfter(walk[j], Some(walk[i].createdAt), Some(walk[i].decisionId))
    {
      assert Newer(walk[i], walk[j]);
    }
    DistinctByCount(walk);
    forall r | r in tables[0] && Asked(q, r) ensures multiset(walk)[r] == 1 {
      assert r in walk && r in multiset(walk);
    }
  }

  // --- the walk ends ------------------------------------------------------------------------------

  function Times(n: nat, k: nat): nat { if n == 0 then 0 else k + Times(n - 1, k) }

  lemma {:induction false} TimesIs(n: nat, k: nat)
    ensures Times(n, k) == n * k
  {
    if n == 0 {
      assert 0 * k == 0;
    } else {
      TimesIs(n - 1, k);
      assert (n - 1) * k + k == n * k;
    }
  }

  lemma {:induction false} FullPages(read: Reader, tables: seq<seq<Row>>, q: Query, c: Cursor)
    requires q.limit > 0 && !Finishes(read, tables, q.limit, c)
    ensures |Walk(read, tables, c)| >= Times(|tables|, q.limit)
    decreases |tables|
  {
    if tables != [] {
      var page := read(tables[0], c);
      FullPages(read, tables[1..], q, Last(page));
    }
  }

  /** A walk with room for more rows than there are in the end has finished. */
  lemma WalkFinishes(tables: seq<seq<Row>>, q: Query)
    requires Growing(tables) && q.limit > 0 && tables != []
    requires |tables[|tables| - 1]| < |tables| * q.limit
    ensures Finishes(Pages(q), tables, q.limit, START)
  {
    if !Finishes(Pages(q), tables, q.limit, START) {
      FullPages(Pages(q), tables, q, START);
      TimesIs(|tables|, q.limit);
      PagesAreExact(q);
      WalkFrom(Pages(q), tables, q, START);
      DescendingFits(Walk(Pages(q), tables, START), tables[|tables| - 1]);
    }
  }

  lemma DescendingFits(rows: seq<Row>, table: seq<Row>)
    requires Descending(rows) && forall r :: r in rows ==> r in table
    ensures |rows| <= |table|
  {
    forall i, j | 0 <= i < j < |rows| ensures rows[i] != rows[j] { assert Newer(rows[i], rows[j]); }
    DistinctByCount(rows);
    assert multiset(rows) <= multiset(table) by {
      forall r ensures multiset(rows)[r] <= multiset(table)[r] {
        if multiset(rows)[r] > 0 {
          assert r in rows;
          assert r in multiset(table);
        }
      }
    }
    assert multiset(table) == multiset(rows) + (multiset(table) - multiset(rows));
    assert |multiset(rows)| == |rows| && |multiset(table)| == |table|;
  }
}
