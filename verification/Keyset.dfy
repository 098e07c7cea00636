/** Keyset pages over a fixed snapshot of rows: ORDER BY key, LIMIT limit + 1, drop the extra row. */
module Keyset {
  import opened Wrappers
  import opened Ordering

  /** No page of the store is longer. */
  const MAX_PROJECTION_PAGE_LIMIT := 512

  datatype Page<+T> = Page(items: seq<T>, nextAfter: Option<T>)

  /** The rows a cursor still has to visit. */
  function Remaining<T(!new)>(rows: set<T>, less: Less<T>, after: Option<T>): (r: set<T>) {
    set x | x in rows && (after.None? || less(after.value, x))
  }

  /** What the store returns for the ordered, limited query. */
  function Select<T(!new)>(rows: set<T>, less: Less<T>, after: Option<T>, count: nat): seq<T>
    requires StrictTotal(less)
  {
    var all := Listing(Remaining(rows, less, after), less);
    if count < |all| then all[..count] else all
  }

  /** A page holds the first `limit` remaining rows, and a cursor exactly when rows are left over. */
  function PageOf<T(!new)>(rows: set<T>, less: Less<T>, after: Option<T>, limit: nat): Page<T>
    requires StrictTotal(less)
  {
    var all := Listing(Remaining(rows, less, after), less);
    if |all| <= limit then Page(all, None)
    else Page(all[..limit], if limit == 0 then None else Some(all[limit - 1]))
  }

  method ReadPage<T(!new)>(rows: set<T>, less: Less<T>, after: Option<T>, limit: nat) returns (page: Page<T>)
    requires StrictTotal(less)
    ensures page == PageOf(rows, less, after, limit)
  {
    hide StrictTotal, Remaining, Ascending;
    var items := Select(rows, less, after, limit + 1);
    var truncated := |items| > limit;
    if truncated {
      items := items[..|items| - 1];
    }
    var nextAfter := if truncated && items != [] then Some(items[|items| - 1]) else None;
    page := Page(items, nextAfter);
  }

  /** All rows met by following `nextAfter` until it is absent. */
  function FollowPages<T(!new)>(rows: set<T>, less: Less<T>, after: Option<T>, limit: nat): seq<T>
    requires StrictTotal(less) && limit >= 1
    decreases |Remaining(rows, less, after)|
  {
    var page := PageOf(rows, less, after, limit);
    if page.nextAfter.None? then page.items
    else
      CursorAdvances(rows, less, after, limit);
      page.items + FollowPages(rows, less, page.nextAfter, limit)
  }

  /** Past the last row of a cut page remain exactly the rows the page left out. */
  lemma CursorAdvances<T(!new)>(rows: set<T>, less: Less<T>, after: Option<T>, limit: nat)
    requires StrictTotal(less) && limit >= 1
    requires limit < |Remaining(rows, less, after)|
    ensures var all := Listing(Remaining(rows, less, after), less);
            var next := PageOf(rows, less, after, limit).nextAfter;
            && next == Some(all[limit - 1])
            && Listing(Remaining(rows, less, next), less) == all[limit..]
            && |Remaining(rows, less, next)| < |Remaining(rows, less, after)|
  {
    var left := Remaining(rows, less, after);
    var all := Listing(left, less);
    var cursor := all[limit - 1];
    var past := Remaining(rows, less, Some(cursor));
    assert cursor in all;
    forall x ensures x in past <==> x in all[limit..] {
      if x in past {
        assert x in left && x in all;
        var i :| 0 <= i < |all| && all[i] == x;
        assert i >= limit;
      }
      if x in all[limit..] {
        var i :| limit <= i < |all| && all[i] == x;
        assert x in all && less(cursor, x);
      }
    }
    AscendingUnique(Listing(past, less), all[limit..], less);
  }

  /** Following cursors yields every remaining row exactly once, in order. */
  lemma {:induction false} PagesEnumerate<T(!new)>(rows: set<T>, less: Less<T>, after: Option<T>, limit: nat)
    requires StrictTotal(less) && limit >= 1
    ensures FollowPages(rows, less, after, limit) == Listing(Remaining(rows, less, after), less)
    decreases |Remaining(rows, less, after)|
  {
    hide StrictTotal, Remaining, Listing, Ascending;
    var page := PageOf(rows, less, after, limit);
    var all := Listing(Remaining(rows, less, after), less);
    if page.nextAfter.Some? {
      CursorAdvances(rows, less, after, limit);
      PagesEnumerate(rows, less, page.nextAfter, limit);
      assert all[..limit] + all[limit..] == all;
    }
  }

  /** Started without a cursor, paging lists the whole table. */
  lemma PagesEnumerateAll<T(!new)>(rows: set<T>, less: Less<T>, limit: nat)
    requires StrictTotal(less) && limit >= 1
    ensures FollowPages(rows, less, None, limit) == Listing(rows, less)
  {
    PagesEnumerate(rows, less, None, limit);
    assert Remaining(rows, less, None) == rows;
  }

  /** A page of the rows past a cursor is the page past that cursor; it holds rows, and its last one is the next cursor. */
  lemma RestOfPage<T(!new)>(rows: set<T>, less: Less<T>, after: Option<T>, limit: nat)
    requires StrictTotal(less) && limit >= 1
    ensures var page := PageOf(rows, less, after, limit);
            && PageOf(Remaining(rows, less, after), less, None, limit) == page
            && (forall i :: 0 <= i < |page.items| ==> page.items[i] in rows)
            && (page.nextAfter.Some? ==> page.items != [] && page.nextAfter.value == page.items[|page.items| - 1])
  {
    hide StrictTotal, Ascending;
    var left := Remaining(rows, less, after);
    assert Remaining(left, less, None) == left;
    var all := Listing(left, less);
    forall i | 0 <= i < |all| ensures all[i] in rows {
      assert all[i] in all;
    }
  }
}
