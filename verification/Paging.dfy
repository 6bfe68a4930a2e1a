/** Keyset paging over the trace list: a reader walks from page to page while rows are inserted and
    deleted.  A row is its sort key, newest first; the filter of the walk is fixed. */
module Paging {
  import opened Ids
  import opened Wrappers

  datatype Key = Key(createdAt: int, trace: Id)

  /** (created_at, trace_id) < (created_at, trace_id). */
  predicate Below(a: Key, b: Key)
  {
    a.createdAt < b.createdAt || (a.createdAt == b.createdAt && a.trace.order < b.trace.order)
  }

  predicate BelowCursor(k: Key, cursor: Option<Key>)
  {
    cursor.None? || Below(k, cursor.value)
  }

  predicate NewestFirst(s: seq<Key>)
  {
    forall i, j :: 0 <= i < j < |s| ==> Below(s[j], s[i])
  }

  /** What `WHERE key < cursor ORDER BY key DESC LIMIT n` returns. */
  ghost predicate IsQueryResult(rows: seq<Key>, table: set<Key>, cursor: Option<Key>, n: nat)
  {
    && NewestFirst(rows) && |rows| <= n
    && (forall k :: k in rows ==> k in table && BelowCursor(k, cursor))
    && (forall k :: k in table && BelowCursor(k, cursor) && k !in rows ==> |rows| == n && forall r :: r in rows ==>
        Below(k, r))
  }

  /** The number of rows a request gets. */
  function ClampLimit(limit: Option<int>, fallback: int, most: int): (r: int)
    ensures limit.None? ==> r == fallback
    ensures limit.Some? && most >= 1 ==> 1 <= r <= most && (1 <= limit.value <= most ==> r == limit.value)
  {
    if limit.None? then fallback
    else if limit.value < most then if limit.value < 1 then 1 else limit.value
    else if most < 1 then 1 else most
  }

  /** Trim the one row too many; it only says that there is more. */
  function BuildPage(rows: seq<Key>, limit: nat): (seq<Key>, Option<Key>, bool)
  {
    var more := |rows| > limit;
    var page := if more then rows[..limit] else rows;
    (page, if more && page != [] then Some(page[|page| - 1]) else None, more)
  }

  /** One request: the rows of a query one longer than the page. */
  ghost predicate IsPage(table: set<Key>, cursor: Option<Key>, limit: nat, page: seq<Key>, next: Option<Key>)
  {
    exists rows :: IsQueryResult(rows, table, cursor, limit + 1) &&
        BuildPage(rows, limit) == (page, next, |rows| > limit)
  }

  /** What one page means: it is in order and below its cursor, its own cursor is its last row, and no
      matching row of the table is passed over. */
  lemma PageMeans(table: set<Key>, cursor: Option<Key>, limit: nat, page: seq<Key>, next: Option<Key>)
    requires limit > 0 && IsPage(table, cursor, limit, page, next)
    ensures NewestFirst(page) && |page| <= limit && forall k :: k in page ==> k in table && BelowCursor(k, cursor)
    ensures next.Some? ==> page != [] && next == Some(page[|page| - 1])
    ensures next.Some? <==> exists k :: k in table && BelowCursor(k, cursor) && k !in page
    ensures forall k :: k in table && BelowCursor(k, cursor) && k !in page ==> next.Some? && Below(k, next.value)
  {
    var rows :| IsQueryResult(rows, table, cursor, limit + 1) && BuildPage(rows, limit) == (page, next, |rows| > limit);
    if |rows| > limit { assert rows[limit] in rows && rows[limit] !in page; }
  }

  /** A page goes from the newest row down, ids breaking ties downwards; every row it shows is older than the
      cursor, and every older row it leaves out is older than all it shows. */
  lemma PageIsNewestFirst(table: set<Key>, cursor: Option<Key>, limit: nat, page: seq<Key>, next: Option<Key>)
    requires limit > 0 && IsPage(table, cursor, limit, page, next)
    ensures forall i, j :: 0 <= i < j < |page| ==>
              && page[j].createdAt <= page[i].createdAt
              && (page[j].createdAt == page[i].createdAt ==> page[j].trace.order < page[i].trace.order)
    ensures cursor.Some? ==> forall k :: k in page ==> k.createdAt <= cursor.value.createdAt
    ensures forall k, r :: k in table && BelowCursor(k, cursor) && k !in page && r in page ==>
        k.createdAt <= r.createdAt
  {
    PageMeans(table, cursor, limit, page, next);
    forall k, r | k in table && BelowCursor(k, cursor) && k !in page && r in page ensures k.createdAt <= r.createdAt {
      LastIsLeast(page, r);
    }
  }

  /** A walk: every page continues where the one before stopped, each against the table of its moment;
      `cursors[k]` is what request k was given. */
  ghost predicate IsWalk(tables: seq<set<Key>>, limit: nat, cursors: seq<Option<Key>>, pages: seq<seq<Key>>)
  {
    && |pages| == |tables| && |cursors| == |tables| + 1 && cursors[0] == None
    && (forall k :: 0 <= k < |pages| ==> IsPage(tables[k], cursors[k], limit, pages[k], cursors[k + 1]))
    && (forall k :: 0 < k < |pages| ==> cursors[k].Some?)
  }

  /** The walk ended because there was no next cursor. */
  ghost predicate Finished(cursors: seq<Option<Key>>)
  {
    |cursors| > 1 && cursors[|cursors| - 1].None?
  }

  lemma LastIsLeast(page: seq<Key>, k: Key)
    requires NewestFirst(page) && k in page
    ensures k == page[|page| - 1] || Below(page[|page| - 1], k)
  {
  }

  /** Cursors only go down. */
  lemma {:induction false} CursorsDescend(tables: seq<set<Key>>, limit: nat, cursors: seq<Option<Key>>,
                                          pages: seq<seq<Key>>, j: nat, k: nat)
    requires IsWalk(tables, limit, cursors, pages) && limit > 0 && 0 < j <= k < |pages|
    ensures cursors[j].Some? && cursors[k].Some? &&
        (cursors[k] == cursors[j] || Below(cursors[k].value, cursors[j].value))
    decreases k
  {
    if j < k {
      CursorsDescend(tables, limit, cursors, pages, j, k - 1);
      PageMeans(tables[k - 1], cursors[k - 1], limit, pages[k - 1], cursors[k]);
      assert cursors[k].value in pages[k - 1];
    }
  }

  /** A later page only has rows below every row of an earlier one. */
  lemma {:induction false} LaterPagesAreBelow(tables: seq<set<Key>>, limit: nat, cursors: seq<Option<Key>>,
                                              pages: seq<seq<Key>>,
                                              j: nat, k: nat, a: Key, b: Key)
    requires IsWalk(tables, limit, cursors, pages) && limit > 0 && j < k < |pages| && a in pages[j] && b in pages[k]
    ensures Below(b, a)
  {
    PageMeans(tables[j], cursors[j], limit, pages[j], cursors[j + 1]);
    PageMeans(tables[k], cursors[k], limit, pages[k], cursors[k + 1]);
    CursorsDescend(tables, limit, cursors, pages, j + 1, k);
    LastIsLeast(pages[j], a);
  }

  /** No row is ever returned twice, whatever is inserted or deleted in between. */
  lemma {:induction false} NeverTwice(tables: seq<set<Key>>, limit: nat, cursors: seq<Option<Key>>,
                                      pages: seq<seq<Key>>,
                                      j: nat, m: nat, k: nat, n: nat)
    requires IsWalk(tables, limit, cursors, pages) && limit > 0
    requires j < |pages| && m < |pages[j]| && k < |pages| && n < |pages[k]| && pages[j][m] == pages[k][n]
    ensures j == k && m == n
  {
    PageMeans(tables[j], cursors[j], limit, pages[j], cursors[j + 1]);
    if j < k { LaterPagesAreBelow(tables, limit, cursors, pages, j, k, pages[j][m], pages[k][n]); }
    if k < j { LaterPagesAreBelow(tables, limit, cursors, pages, k, j, pages[k][n], pages[j][m]); }
  }

  ghost predicate Returned(pages: seq<seq<Key>>, r: Key)
  {
    exists k :: 0 <= k < |pages| && r in pages[k]
  }

  /** A row that has been there all along and has not been returned yet is still ahead of the cursor. */
  lemma {:induction false} StillAhead(tables: seq<set<Key>>, limit: nat, cursors: seq<Option<Key>>,
                                      pages: seq<seq<Key>>, r: Key, k: nat)
    requires IsWalk(tables, limit, cursors, pages) && limit > 0 && k <= |pages|
    requires forall j :: 0 <= j < k ==> r in tables[j] && r !in pages[j]
    ensures BelowCursor(r, cursors[k]) && (k > 0 ==> cursors[k].Some?)
    decreases k
  {
    if k > 0 {
      StillAhead(tables, limit, cursors, pages, r, k - 1);
      PageMeans(tables[k - 1], cursors[k - 1], limit, pages[k - 1], cursors[k]);
    }
  }

  /** Every row present throughout a finished walk is returned, in exactly one place. */
  lemma {:induction false} ReturnedExactlyOnce(tables: seq<set<Key>>, limit: nat, cursors: seq<Option<Key>>,
                                               pages: seq<seq<Key>>, r: Key)
    requires IsWalk(tables, limit, cursors, pages) && limit > 0 && Finished(cursors)
    requires forall k :: 0 <= k < |tables| ==> r in tables[k]
    ensures exists k, n :: 0 <= k < |pages| && 0 <= n < |pages[k]| && pages[k][n] == r
    ensures forall j, m, k, n ::
              0 <= j < |pages| && 0 <= m < |pages[j]| && 0 <= k < |pages| && 0 <= n < |pages[k]| &&
                  pages[j][m] == r == pages[k][n]
              ==> j == k && m == n
  {
    if forall k :: 0 <= k < |pages| ==> r !in pages[k] {
      StillAhead(tables, limit, cursors, pages, r, |pages|);
      assert false;
    }
    forall j, m, k, n |
      0 <= j < |pages| && 0 <= m < |pages[j]| && 0 <= k < |pages| && 0 <= n < |pages[k]| &&
      pages[j][m] == r == pages[k][n]
      ensures j == k && m == n
    {
      NeverTwice(tables, limit, cursors, pages, j, m, k, n);
    }
  }
}
