/**
 * Keyset paging while other clients insert and remove rows between the pages.
 *
 * The cursor travels as a token and is decoded again by each request.  How the
 * database compares ids is a parameter: any total order.
 */
module Paging {
  import opened Common
  import opened Orders
  import opened Base64Url
  import opened Cursor

  type IdOrder = (seq<Byte>, seq<Byte>) -> bool

  type RowOrder = (Position, Position) -> bool

  datatype CursorOrder = Descending | Ascends

  function Keyset(order: CursorOrder, idLess: IdOrder): (Position, Position) -> bool {
    (a: Position, b: Position) => ComesBefore(order, idLess, a, b)
  }

  /** `b` satisfies the keyset predicate of the cursor `a`. */
  predicate ComesBefore(order: CursorOrder, idLess: IdOrder, a: Position, b: Position) {
    match order
    case Ascends => b.time > a.time || (b.time == a.time && idLess(a.id, b.id))
    case Descending => b.time < a.time || (b.time == a.time && idLess(b.id, a.id))
  }

  lemma KeysetIsTotal(order: CursorOrder, idLess: IdOrder)
    requires TotalOrder(idLess)
    ensures TotalOrder(Keyset(order, idLess))
  {
    var less := Keyset(order, idLess);
    forall x, y | x != y ensures less(x, y) || less(y, x) {
      assert x.time != y.time || x.id != y.id;
    }
  }

  /** Zero and negative sizes mean 20, and no page is larger than 100. */
  function NormalizePageSize(n: int): (size: nat)
    ensures 1 <= size <= 100 && (1 <= n <= 100 ==> size == n)
  {
    if n <= 0 then 20 else if n > 100 then 100 else n
  }

  // ---------------------------------------------------------------------
  // One page
  // ---------------------------------------------------------------------

  datatype Page = Page(rows: seq<Position>, next: Option<string>)

  function Beyond(table: set<Position>, less: RowOrder, cursor: Option<Position>): set<Position> {
    set r | r in table && (cursor.Some? ==> less(cursor.value, r))
  }

  /** One row more than the limit is fetched, to know whether there is a next page. */
  function PageAfter(table: set<Position>, less: RowOrder, cursor: Option<Position>, limit: nat): Page
    requires TotalOrder(less) && limit > 0
  {
    var sorted := Sorted(less, Beyond(table, less, cursor));
    if |sorted| > limit then Page(sorted[..limit], Some(EncodeCursor(sorted[limit - 1]))) else Page(sorted, None)
  }

  /** A request with a token, which must decode. */
  function Request(table: set<Position>, less: RowOrder, token: Option<string>, limit: nat,
                   legacy: LegacyParser): Result<Page, CursorError>
    requires TotalOrder(less) && limit > 0
  {
    if token.None? then Ok(PageAfter(table, less, None, limit))
    else
      match DecodeCursor(token.value, legacy)
      case Err(e) => Err(e)
      case Ok(p) => Ok(PageAfter(table, less, Some(p), limit))
  }

  /**
   * The page is in order and lies beyond the cursor, and every row of the table that it
   * leaves out lies beyond its last row.
   */
  ghost predicate GoodPage(table: set<Position>, less: RowOrder, cursor: Option<Position>, page: Page) {
    && Ascending(less, page.rows)
    && (forall r :: r in page.rows ==> r in Beyond(table, less, cursor))
    && (page.next.Some? ==> page.rows != [])
    && (forall r :: r in Beyond(table, less, cursor) && r !in page.rows ==>
          page.next.Some? && less(page.rows[|page.rows| - 1], r))
  }

  lemma PageIsGood(table: set<Position>, less: RowOrder, cursor: Option<Position>, limit: nat)
    requires TotalOrder(less) && limit > 0
    ensures var page := PageAfter(table, less, cursor, limit);
            && GoodPage(table, less, cursor, page)
            && (page.next.Some? ==> page.next.value == EncodeCursor(page.rows[|page.rows| - 1]))
  {
    var sorted := Sorted(less, Beyond(table, less, cursor));
    if |sorted| > limit {
      assert forall k :: 0 <= k < limit ==> sorted[..limit][k] == sorted[k];
      forall r | r in sorted && r !in sorted[..limit] ensures less(sorted[limit - 1], r) {
        var i :| 0 <= i < |sorted| && sorted[i] == r;
      }
      assert forall r :: r in sorted[..limit] ==> r in sorted;
    }
  }

  // ---------------------------------------------------------------------
  // A client that follows the tokens
  // ---------------------------------------------------------------------

  ghost function TokenFor(pages: seq<Page>, i: nat): Option<string>
    requires i <= |pages|
  {
    if i == 0 then None else pages[i - 1].next
  }

  /** Page by page, each against the table as it is at that moment; only a page with a token is followed by another. */
  ghost predicate Session(tables: seq<set<Position>>, pages: seq<Page>, less: RowOrder, limit: nat,
                          legacy: LegacyParser)
    requires TotalOrder(less) && limit > 0
  {
    && |tables| == |pages|
    && (forall i :: 0 < i < |pages| ==> TokenFor(pages, i).Some?)
    && (forall i :: 0 <= i < |pages| ==> Request(tables[i], less, TokenFor(pages, i), limit, legacy) == Ok(pages[i]))
  }

  function Rows(pages: seq<Page>): seq<Position>
    decreases |pages|
  {
    if pages == [] then [] else Rows(pages[..|pages| - 1]) + pages[|pages| - 1].rows
  }

  /** Where the client stands after some pages: the row its token was made from. */
  ghost function Mark(pages: seq<Page>, n: nat): Option<Position>
    requires n <= |pages|
  {
    if n == 0 || pages[n - 1].rows == [] then None else Some(pages[n - 1].rows[|pages[n - 1].rows| - 1])
  }

  /** The same session without tokens: each page lies beyond the last row of the one before. */
  ghost predicate Chain(tables: seq<set<Position>>, pages: seq<Page>, less: RowOrder) {
    && |tables| == |pages|
    && (forall i :: 0 < i < |pages| ==> Mark(pages, i).Some?)
    && (forall i :: 0 <= i < |pages| ==> GoodPage(tables[i], less, Mark(pages, i), pages[i]))
  }

  ghost predicate TokenIsLast(page: Page) {
    page.next.Some? ==> page.rows != [] && page.next.value == EncodeCursor(page.rows[|page.rows| - 1])
  }

  /** A request without a token, or with the token of a row, gets a good page beyond that row. */
  lemma RequestIsGood(table: set<Position>, less: RowOrder, mark: Option<Position>, token: Option<string>,
                      limit: nat, legacy: LegacyParser)
    requires TotalOrder(less) && limit > 0
    requires token == if mark.None? then None else Some(EncodeCursor(mark.value))
    ensures var answer := Request(table, less, token, limit, legacy);
            answer.Ok? && GoodPage(table, less, mark, answer.value) && TokenIsLast(answer.value)
  {
    if mark.Some? {
      CursorRoundTrip(mark.value, legacy);
    }
    PageIsGood(table, less, mark, limit);
  }

  lemma {:induction false} PageOfSession(tables: seq<set<Position>>, pages: seq<Page>, less: RowOrder, limit: nat,
                                         legacy: LegacyParser, i: nat)
    requires TotalOrder(less) && limit > 0 && Session(tables, pages, less, limit, legacy) && i < |pages|
    ensures GoodPage(tables[i], less, Mark(pages, i), pages[i])
    ensures TokenIsLast(pages[i])
    ensures i > 0 ==> Mark(pages, i).Some?
    decreases i
  {
    assert Request(tables[i], less, TokenFor(pages, i), limit, legacy) == Ok(pages[i]);
    if i > 0 {
      PageOfSession(tables, pages, less, limit, legacy, i - 1);
    }
    RequestIsGood(tables[i], less, Mark(pages, i), TokenFor(pages, i), limit, legacy);
  }

  lemma {:induction false} SessionIsChain(tables: seq<set<Position>>, pages: seq<Page>, less: RowOrder, limit: nat,
                                          legacy: LegacyParser)
    requires TotalOrder(less) && limit > 0 && Session(tables, pages, less, limit, legacy)
    ensures Chain(tables, pages, less)
  {
    forall i | 0 <= i < |pages|
      ensures GoodPage(tables[i], less, Mark(pages, i), pages[i]) && (i > 0 ==> Mark(pages, i).Some?)
    {
      PageOfSession(tables, pages, less, limit, legacy, i);
    }
  }

  ghost predicate UpTo(less: RowOrder, mark: Option<Position>, r: Position) {
    mark.Some? && !less(mark.value, r)
  }

  /** The rows so far are in order and end at the mark. */
  ghost predicate InOrder(pages: seq<Page>, n: nat, less: RowOrder)
    requires n <= |pages|
  {
    Ascending(less, Rows(pages[..n])) && forall r :: r in Rows(pages[..n]) ==> UpTo(less, Mark(pages, n), r)
  }

  lemma AppendAscending(less: RowOrder, a: seq<Position>, b: seq<Position>)
    requires Ascending(less, a) && Ascending(less, b) && forall x, y :: x in a && y in b ==> less(x, y)
    ensures Ascending(less, a + b)
  {
    forall i, j | 0 <= i < j < |a + b| ensures less((a + b)[i], (a + b)[j]) {
      if i < |a| <= j {
        assert a[i] in a && b[j - |a|] in b;
      }
    }
  }

  lemma {:induction false} ChainInOrder(tables: seq<set<Position>>, pages: seq<Page>, less: RowOrder, n: nat)
    requires TotalOrder(less) && Chain(tables, pages, less) && n <= |pages|
    ensures Ascending(less, Rows(pages[..n]))
    ensures n == 0 || pages[n - 1].rows != [] ==> InOrder(pages, n, less)
    decreases n
  {
    if n > 0 {
      assert pages[..n][..n - 1] == pages[..n - 1];
      ChainInOrder(tables, pages, less, n - 1);
      assert n > 1 ==> Mark(pages, n - 1).Some?;
      assert GoodPage(tables[n - 1], less, Mark(pages, n - 1), pages[n - 1]);
      PageFollows(tables[n - 1], less, Rows(pages[..n - 1]), Mark(pages, n - 1), pages[n - 1]);
    }
  }

  /** A good page continues rows that end at its cursor. */
  lemma PageFollows(table: set<Position>, less: RowOrder, before: seq<Position>, mark: Option<Position>, page: Page)
    requires TotalOrder(less) && Ascending(less, before) && GoodPage(table, less, mark, page)
    requires mark.None? ==> before == []
    requires forall r :: r in before ==> UpTo(less, mark, r)
    ensures Ascending(less, before + page.rows)
    ensures page.rows != [] ==>
              forall r :: r in before + page.rows ==> UpTo(less, Some(page.rows[|page.rows| - 1]), r)
  {
    forall x, y | x in before && y in page.rows ensures less(x, y) {
      BeyondFollows(less, mark, x, y);
    }
    AppendAscending(less, before, page.rows);
    if page.rows != [] {
      EndsAtLast(less, before, page.rows);
    }
  }

  lemma BeyondFollows(less: RowOrder, mark: Option<Position>, x: Position, y: Position)
    requires TotalOrder(less) && UpTo(less, mark, x) && less(mark.value, y)
    ensures less(x, y)
  {
    assert x == mark.value || less(x, mark.value);
  }

  lemma EndsAtLast(less: RowOrder, before: seq<Position>, rows: seq<Position>)
    requires TotalOrder(less) && rows != [] && Ascending(less, before + rows)
    ensures forall r :: r in before + rows ==> UpTo(less, Some(rows[|rows| - 1]), r)
  {
    var all := before + rows;
    forall r | r in all ensures !less(rows[|rows| - 1], r) {
      var i :| 0 <= i < |all| && all[i] == r;
      assert all[|all| - 1] == rows[|rows| - 1];
    }
  }

  /** A row that was never removed is in the pages as soon as they have reached it. */
  lemma {:induction false} NothingIsSkipped(tables: seq<set<Position>>, pages: seq<Page>, less: RowOrder,
                                            n: nat, r: Position)
    requires Chain(tables, pages, less) && n <= |pages|
    requires forall i :: 0 <= i < n ==> r in tables[i]
    ensures r in Rows(pages[..n]) || n == 0
            || (pages[n - 1].next.Some? && Mark(pages, n).Some? && less(Mark(pages, n).value, r))
    decreases n
  {
    if n > 0 {
      assert pages[..n][..n - 1] == pages[..n - 1];
      NothingIsSkipped(tables, pages, less, n - 1, r);
      assert GoodPage(tables[n - 1], less, Mark(pages, n - 1), pages[n - 1]);
      assert r !in Rows(pages[..n - 1]) ==> r in Beyond(tables[n - 1], less, Mark(pages, n - 1));
    }
  }

  lemma AscendingIsDistinct(less: RowOrder, rows: seq<Position>)
    requires TotalOrder(less) && Ascending(less, rows)
    ensures Distinct(rows)
  {
  }

  /** The rows of a chain are strictly ordered, none twice, and each was in the table of its page. */
  lemma {:induction false} ChainIsOrdered(tables: seq<set<Position>>, pages: seq<Page>, less: RowOrder)
    requires TotalOrder(less) && Chain(tables, pages, less)
    ensures Ascending(less, Rows(pages)) && Distinct(Rows(pages))
    ensures forall i, r :: 0 <= i < |pages| && r in pages[i].rows ==> r in tables[i]
  {
    assert pages[..|pages|] == pages;
    ChainInOrder(tables, pages, less, |pages|);
    AscendingIsDistinct(less, Rows(pages));
    forall i, r | 0 <= i < |pages| && r in pages[i].rows ensures r in tables[i] {
      assert GoodPage(tables[i], less, Mark(pages, i), pages[i]);
    }
  }

  lemma {:induction false} ChainIsComplete(tables: seq<set<Position>>, pages: seq<Page>, less: RowOrder, r: Position)
    requires Chain(tables, pages, less) && pages != [] && pages[|pages| - 1].next.None?
    requires forall i :: 0 <= i < |tables| ==> r in tables[i]
    ensures r in Rows(pages)
  {
    assert pages[..|pages|] == pages;
    NothingIsSkipped(tables, pages, less, |pages|, r);
  }

  /**
   * Whatever page size is asked for, and whatever is inserted or removed while a client
   * pages, the rows it gets are strictly ordered, so none comes twice; and when the last
   * page has no token, every row that was there from the first page to the last is among
   * them.
   */
  lemma {:induction false} PagingIsExactlyOnce(tables: seq<set<Position>>, pages: seq<Page>, less: RowOrder, size: int,
                                               legacy: LegacyParser)
    requires TotalOrder(less) && pages != [] && Session(tables, pages, less, NormalizePageSize(size), legacy)
    ensures Ascending(less, Rows(pages)) && Distinct(Rows(pages))
    ensures forall i, r :: 0 <= i < |pages| && r in pages[i].rows ==> r in tables[i]
    ensures pages[|pages| - 1].next.None? ==>
              forall r :: (forall i :: 0 <= i < |tables| ==> r in tables[i]) ==> r in Rows(pages)
  {
    SessionIsChain(tables, pages, less, NormalizePageSize(size), legacy);
    ChainIsOrdered(tables, pages, less);
    if pages[|pages| - 1].next.None? {
      forall r | forall i :: 0 <= i < |tables| ==> r in tables[i] ensures r in Rows(pages) {
        ChainIsComplete(tables, pages, less, r);
      }
    }
  }

  // ---------------------------------------------------------------------
  // How many pages there are
  // ---------------------------------------------------------------------

  ghost function Elements(rows: seq<Position>): set<Position> {
    set r | r in rows
  }

  lemma {:induction false} DistinctCount(rows: seq<Position>)
    requires Distinct(rows)
    ensures |Elements(rows)| == |rows|
  {
    if rows != [] {
      var n := |rows| - 1;
      DistinctCount(rows[..n]);
      assert rows == rows[..n] + [rows[n]];
      assert Elements(rows) == Elements(rows[..n]) + {rows[n]} && rows[n] !in Elements(rows[..n]);
    }
  }

  lemma SmallerCount(a: set<Position>, b: set<Position>, x: Position)
    requires a <= b && x in b && x !in a
    ensures |a| < |b|
  {
    assert a + {x} <= b;
    SubsetCount(a + {x}, b);
  }

  lemma {:induction false} SubsetCount(a: set<Position>, b: set<Position>)
    requires a <= b
    ensures |a| <= |b|
    decreases |a|
  {
    if x :| x in a {
      SubsetCount(a - {x}, b - {x});
    }
  }

  /** A page with a token is full; one without is not overfull. */
  predicate Filled(limit: nat, page: Page) {
    if page.next.Some? then |page.rows| == limit else |page.rows| <= limit
  }

  lemma RequestIsFilled(table: set<Position>, less: RowOrder, token: Option<string>, limit: nat, legacy: LegacyParser,
                        page: Page)
    requires TotalOrder(less) && limit > 0 && Request(table, less, token, limit, legacy) == Ok(page)
    ensures Filled(limit, page)
  {
  }

  /** A page with a token leaves a row beyond it. */
  lemma RequestLeaves(table: set<Position>, less: RowOrder, token: Option<string>, limit: nat, legacy: LegacyParser,
                      page: Page) returns (r: Position)
    requires TotalOrder(less) && limit > 0 && Request(table, less, token, limit, legacy) == Ok(page)
    requires page.next.Some?
    ensures page.rows != [] && r in table && less(page.rows[|page.rows| - 1], r)
  {
    var cursor := if token.None? then None else Some(DecodeCursor(token.value, legacy).value);
    assert page == PageAfter(table, less, cursor, limit);
    r := Sorted(less, Beyond(table, less, cursor))[limit];
    assert r in Beyond(table, less, cursor);
  }

  /** All rows lie in the table, and a row beyond the last one means that some are missing. */
  lemma {:induction false} RowsMissed(table: set<Position>, less: RowOrder, rows: seq<Position>, r: Position)
    requires TotalOrder(less) && Ascending(less, rows) && Distinct(rows) && rows != []
    requires (forall x :: x in rows ==> x in table) && r in table && less(rows[|rows| - 1], r)
    ensures |rows| < |table|
  {
    DistinctCount(rows);
    forall i | 0 <= i < |rows| ensures rows[i] != r {
    }
    SmallerCount(Elements(rows), table, r);
  }

  ghost predicate Unchanging(tables: seq<set<Position>>, table: set<Position>) {
    forall i :: 0 <= i < |tables| ==> tables[i] == table
  }

  /** If there is a row beyond the last one, the rows of a chain are not all of the table. */
  lemma {:induction false} ChainMisses(tables: seq<set<Position>>, pages: seq<Page>, less: RowOrder,
                                       table: set<Position>, r: Position)
    requires TotalOrder(less) && Chain(tables, pages, less) && Unchanging(tables, table) && pages != []
    requires var last := pages[|pages| - 1].rows; last != [] && r in table && less(last[|last| - 1], r)
    ensures |Rows(pages)| < |table|
  {
    ChainIsOrdered(tables, pages, less);
    forall x | x in Rows(pages) ensures x in table {
      RowsComeFromPages(pages, x);
    }
    RowsMissed(table, less, Rows(pages), r);
  }

  lemma {:induction false} RowsComeFromPages(pages: seq<Page>, x: Position)
    requires x in Rows(pages)
    ensures exists i :: 0 <= i < |pages| && x in pages[i].rows
    decreases |pages|
  {
    var n := |pages| - 1;
    if x !in pages[n].rows {
      RowsComeFromPages(pages[..n], x);
      var i :| 0 <= i < n && x in pages[..n][i].rows;
      assert x in pages[i].rows;
    }
  }

  lemma {:induction false} ChainHoldsAll(tables: seq<set<Position>>, pages: seq<Page>, less: RowOrder,
                                         table: set<Position>)
    requires TotalOrder(less) && Chain(tables, pages, less) && Unchanging(tables, table) && pages != []
    requires pages[|pages| - 1].next.None?
    ensures |table| <= |Rows(pages)|
  {
    ChainIsOrdered(tables, pages, less);
    forall r | r in table ensures r in Elements(Rows(pages)) {
      ChainIsComplete(tables, pages, less, r);
    }
    DistinctCount(Rows(pages));
    SubsetCount(table, Elements(Rows(pages)));
  }

  /** With a token the rows so far are not all of the table, without one they are. */
  lemma {:induction false} TokenMeansMore(tables: seq<set<Position>>, pages: seq<Page>, less: RowOrder, limit: nat,
                                          legacy: LegacyParser, table: set<Position>)
    requires TotalOrder(less) && limit > 0 && Session(tables, pages, less, limit, legacy) && pages != []
    requires Unchanging(tables, table)
    ensures pages[|pages| - 1].next.Some? <==> |Rows(pages)| < |table|
  {
    var n := |pages| - 1;
    SessionIsChain(tables, pages, less, limit, legacy);
    if pages[n].next.Some? {
      var r := RequestLeaves(tables[n], less, TokenFor(pages, n), limit, legacy, pages[n]);
      ChainMisses(tables, pages, less, table, r);
    } else {
      ChainHoldsAll(tables, pages, less, table);
    }
  }

  /** Every page but the last has a token, and all are filled. */
  ghost predicate Followed(pages: seq<Page>, limit: nat) {
    && (forall i :: 0 <= i < |pages| ==> Filled(limit, pages[i]))
    && (forall i :: 0 <= i < |pages| - 1 ==> pages[i].next.Some?)
  }

  lemma {:induction false} SessionIsFollowed(tables: seq<set<Position>>, pages: seq<Page>, less: RowOrder, limit: nat,
                                             legacy: LegacyParser)
    requires TotalOrder(less) && limit > 0 && Session(tables, pages, less, limit, legacy)
    ensures Followed(pages, limit)
  {
    forall i | 0 <= i < |pages| ensures Filled(limit, pages[i]) {
      assert Request(tables[i], less, TokenFor(pages, i), limit, legacy) == Ok(pages[i]);
      RequestIsFilled(tables[i], less, TokenFor(pages, i), limit, legacy, pages[i]);
    }
    forall i | 0 <= i < |pages| - 1 ensures pages[i].next.Some? {
      assert TokenFor(pages, i + 1).Some?;
    }
  }

  /** Full pages, and a last one that may be shorter. */
  lemma {:induction false} RowsOfFollowed(pages: seq<Page>, limit: nat)
    requires Followed(pages, limit)
    ensures |Rows(pages)| <= limit * |pages|
    ensures pages != [] && pages[|pages| - 1].next.Some? ==> |Rows(pages)| == limit * |pages|
    decreases |pages|
  {
    if pages != [] {
      var n := |pages| - 1;
      assert n > 0 ==> pages[..n][n - 1].next.Some?;
      RowsOfFollowed(pages[..n], limit);
      assert limit * (n + 1) == limit * n + limit;
    }
  }

  lemma {:induction false} SessionPrefix(tables: seq<set<Position>>, pages: seq<Page>, less: RowOrder, limit: nat,
                                         legacy: LegacyParser, n: nat)
    requires TotalOrder(less) && limit > 0 && Session(tables, pages, less, limit, legacy) && 0 < n < |pages|
    ensures Session(tables[..n], pages[..n], less, limit, legacy) && pages[..n][n - 1].next.Some?
  {
    assert TokenFor(pages, n).Some?;
    forall i | 0 <= i < n ensures TokenFor(pages[..n], i) == TokenFor(pages, i) {
    }
  }

  lemma {:induction false} TokenIffTooSmall(tables: seq<set<Position>>, pages: seq<Page>, less: RowOrder, limit: nat,
                                            legacy: LegacyParser, table: set<Position>)
    requires TotalOrder(less) && limit > 0 && Session(tables, pages, less, limit, legacy) && pages != []
    requires Unchanging(tables, table)
    ensures pages[|pages| - 1].next.Some? <==> limit * |pages| < |table|
  {
    SessionIsFollowed(tables, pages, less, limit, legacy);
    TokenMeansMore(tables, pages, less, limit, legacy, table);
    RowsOfFollowed(pages, limit);
  }

  /**
   * Against an unchanging table a client that follows the tokens ends: there is another
   * page exactly as long as the pages so far are too small for the table.
   */
  lemma {:induction false} PagingEnds(tables: seq<set<Position>>, pages: seq<Page>, less: RowOrder, size: int,
                                      legacy: LegacyParser, table: set<Position>)
    requires TotalOrder(less) && Session(tables, pages, less, NormalizePageSize(size), legacy) && pages != []
    requires Unchanging(tables, table)
    ensures pages[|pages| - 1].next.Some? <==> NormalizePageSize(size) * |pages| < |table|
    ensures |pages| > 1 ==> NormalizePageSize(size) * (|pages| - 1) < |table|
  {
    var limit := NormalizePageSize(size);
    TokenIffTooSmall(tables, pages, less, limit, legacy, table);
    if |pages| > 1 {
      var n := |pages| - 1;
      SessionPrefix(tables, pages, less, limit, legacy, n);
      TokenIffTooSmall(tables[..n], pages[..n], less, limit, legacy, table);
    }
  }
}
