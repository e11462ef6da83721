/** Keyset pagination: page.ts and the two lists of submissions.service.ts. */
module Pagination {
  import opened Wrappers

  /** A row by its sort key: a database time in microseconds and the id. */
  datatype Row = Row(at: int, id: int)

  /** The order of the review queue (ascending) and of the list (descending). */
  predicate Less(a: Row, b: Row, ascending: bool) {
    if ascending then a.at < b.at || (a.at == b.at && a.id < b.id)
    else b.at < a.at || (a.at == b.at && b.id < a.id)
  }

  /** A cursor carries the time as the ISO string of a JavaScript date, in milliseconds. */
  function CursorOf(row: Row): Row { Row(row.at / 1000 * 1000, row.id) }

  predicate WholeMilliseconds(row: Row) { row.at % 1000 == 0 }

  datatype Page = Page(items: seq<Row>, nextCursor: Option<Row>)

  /** toPage: rows holds up to one row more than the page. */
  function ToPage(rows: seq<Row>, limit: nat): Page
    requires limit >= 1
  {
    var hasMore := |rows| > limit;
    var items := if hasMore then rows[..limit] else rows;
    Page(items, if hasMore then Some(CursorOf(items[|items| - 1])) else None)
  }

  lemma LessIsStrict(a: Row, b: Row, ascending: bool)
    ensures !(Less(a, b, ascending) && Less(b, a, ascending)) && !Less(a, a, ascending)
    ensures a == b || Less(a, b, ascending) || Less(b, a, ascending)
  {
  }

  lemma LessChains(a: Row, b: Row, c: Row, ascending: bool)
    requires Less(a, b, ascending) && Less(b, c, ascending)
    ensures Less(a, c, ascending)
  {
  }

  // ---------------------------------------------------------------- the query

  ghost predicate IsFirst(first: Row, rows: set<Row>, ascending: bool) {
    first in rows && forall other :: other in rows && other != first ==> Less(first, other, ascending)
  }

  lemma {:induction false} FirstRow(rows: set<Row>, ascending: bool) returns (first: Row)
    requires rows != {}
    ensures IsFirst(first, rows, ascending)
  {
    hide Less;
    var row :| row in rows;
    var rest := rows - {row};
    assert forall other :: other in rows ==> other == row || other in rest;
    if rest == {} {
      first := row;
    } else {
      var least := FirstRow(rest, ascending);
      LessIsStrict(row, least, ascending);
      if Less(row, least, ascending) {
        forall other | other in rest && other != least
          ensures Less(row, other, ascending)
        {
          LessChains(row, least, other, ascending);
        }
        first := row;
      } else {
        first := least;
      }
    }
  }

  ghost predicate Ordered(list: seq<Row>, ascending: bool) {
    forall i, j :: 0 <= i < j < |list| ==> Less(list[i], list[j], ascending)
  }

  ghost predicate Holds(list: seq<Row>, rows: set<Row>) { forall row :: row in list <==> row in rows }

  /** order by: every row once, in order. */
  ghost function InOrder(rows: set<Row>, ascending: bool): (list: seq<Row>)
    ensures |list| == |rows| && Holds(list, rows) && Ordered(list, ascending)
  {
    if rows == {} then []
    else
      var first := FirstRowOf(rows, ascending);
      var rest := InOrder(rows - {first}, ascending);
      assert forall i :: 0 <= i < |rest| ==> rest[i] in rest;
      [first] + rest
  }

  ghost function FirstRowOf(rows: set<Row>, ascending: bool): (first: Row)
    requires rows != {}
    ensures IsFirst(first, rows, ascending)
  {
    assert exists first :: IsFirst(first, rows, ascending) by { var first := FirstRow(rows, ascending); }
    var first :| IsFirst(first, rows, ascending);
    first
  }

  function After(rows: set<Row>, ascending: bool, cursor: Option<Row>): set<Row> {
    set row | row in rows && (cursor.Some? ==> Less(cursor.value, row, ascending))
  }

  /** The page query: the filtered rows after the cursor, in order, up to one more than the limit. */
  ghost function Query(rows: set<Row>, ascending: bool, cursor: Option<Row>, limit: nat): seq<Row> {
    var list := InOrder(After(rows, ascending, cursor), ascending);
    if |list| > limit + 1 then list[..limit + 1] else list
  }

  // ---------------------------------------------------------------- walking the pages

  /** A cursor separates exactly the rows after its row if and only if the time of that row is a
      whole number of milliseconds, as the times that the service writes are. */
  lemma CursorIsExact(row: Row, ascending: bool)
    ensures (forall other :: Less(CursorOf(row), other, ascending) <==> Less(row, other, ascending))
        <==> WholeMilliseconds(row)
  {
    if WholeMilliseconds(row) {
      assert CursorOf(row) == row;
    } else if ascending {
      assert Less(CursorOf(row), row, ascending) && !Less(row, row, ascending);
    } else {
      assert Less(row, CursorOf(row), ascending) && !Less(CursorOf(row), CursorOf(row), ascending);
    }
  }

  /** In this table the cursor of a row separates the same rows as the row itself. */
  ghost predicate CursorExactIn(rows: set<Row>, ascending: bool, row: Row) {
    After(rows, ascending, Some(CursorOf(row))) == After(rows, ascending, Some(row))
  }

  /** In the ascending list the cursor of a row would return the row itself again, unless its time
      is whole. In the descending list it would skip what follows the row in its millisecond. */
  lemma CursorExactInTable(rows: set<Row>, ascending: bool, row: Row)
    requires row in rows
    ensures ascending ==> (CursorExactIn(rows, ascending, row) <==> WholeMilliseconds(row))
    ensures !ascending ==>
              (CursorExactIn(rows, ascending, row) <==>
               forall other :: other in rows && Less(row, other, ascending) && other.at / 1000 == row.at / 1000 ==>
                 WholeMilliseconds(other) && other.id < row.id)
  {
    if ascending {
      if WholeMilliseconds(row) {
        assert CursorOf(row) == row;
      } else {
        assert row in After(rows, ascending, Some(CursorOf(row))) && row !in After(rows, ascending, Some(row));
      }
    } else {
      forall other | other in rows
        ensures Less(CursorOf(row), other, ascending)
          <==> && Less(row, other, ascending)
               && (other.at / 1000 == row.at / 1000 ==> WholeMilliseconds(other) && other.id < row.id)
      {
      }
      if CursorExactIn(rows, ascending, row) {
        forall other | other in rows && Less(row, other, ascending) && other.at / 1000 == row.at / 1000
          ensures WholeMilliseconds(other) && other.id < row.id
        {
          assert other in After(rows, ascending, Some(row));
          assert other in After(rows, ascending, Some(CursorOf(row)));
        }
      }
    }
  }

  lemma TailWithoutFirst(list: seq<Row>, ascending: bool, row: Row)
    requires Ordered(list, ascending) && list != []
    ensures row in list[1..] <==> row in list && row != list[0]
  {
    hide Less;
    assert list == [list[0]] + list[1..];
    if row in list[1..] {
      var i :| 0 <= i < |list[1..]| && list[1..][i] == row;
      assert list[i + 1] == row;
      LessIsStrict(list[0], row, ascending);
    }
  }

  /** Two lists in order of the same rows are the same. */
  lemma {:induction false} OrderIsUnique(a: seq<Row>, b: seq<Row>, ascending: bool)
    requires forall row :: row in a <==> row in b
    requires Ordered(a, ascending) && Ordered(b, ascending)
    ensures a == b
    decreases |a|
  {
    hide Less;
    assert (a == [] || a[0] in a) && (b == [] || b[0] in b);
    if a != [] {
      assert a[0] == b[0] by {
        if a[0] != b[0] {
          var i :| 0 <= i < |b| && b[i] == a[0];
          var j :| 0 <= j < |a| && a[j] == b[0];
          LessIsStrict(a[0], b[0], ascending);
          assert false;
        }
      }
      forall row
        ensures row in a[1..] <==> row in b[1..]
      {
        TailWithoutFirst(a, ascending, row);
        TailWithoutFirst(b, ascending, row);
      }
      OrderIsUnique(a[1..], b[1..], ascending);
      assert a == [a[0]] + a[1..] && b == [b[0]] + b[1..];
    }
  }

  /** In an ordered list, what comes after the row at k - 1 is the rest from k. */
  lemma RestAfter(list: seq<Row>, ascending: bool, k: nat, other: Row)
    requires Ordered(list, ascending) && 1 <= k <= |list|
    ensures other in list && Less(list[k - 1], other, ascending) <==> other in list[k..]
  {
    hide Less;
    if other in list && Less(list[k - 1], other, ascending) {
      var i :| 0 <= i < |list| && list[i] == other;
      LessIsStrict(list[k - 1], other, ascending);
      assert i >= k;
      assert list[k..][i - k] == other;
    }
    if other in list[k..] {
      var i :| 0 <= i < |list[k..]| && list[k..][i] == other;
      assert list[k + i] == other;
    }
  }

  /** The rows after the row at k - 1 are the rest of the list from k. */
  lemma RowContinues(rows: set<Row>, ascending: bool, cursor: Option<Row>, k: nat)
    requires 1 <= k <= |InOrder(After(rows, ascending, cursor), ascending)|
    ensures var list := InOrder(After(rows, ascending, cursor), ascending);
            && list[k - 1] in rows
            && Holds(list[k..], After(rows, ascending, Some(list[k - 1])))
            && InOrder(After(rows, ascending, Some(list[k - 1])), ascending) == list[k..]
  {
    hide Less, InOrder;
    var rest := After(rows, ascending, cursor);
    var list := InOrder(rest, ascending);
    var row := list[k - 1];
    assert row in list && row in rest;
    var next := After(rows, ascending, Some(row));
    forall other
      ensures other in next <==> other in list[k..]
    {
      if other in next && cursor.Some? { LessChains(cursor.value, row, other, ascending); }
      RestAfter(list, ascending, k, other);
      assert other in list <==> other in rest;
    }
    assert Ordered(list[k..], ascending);
    OrderIsUnique(InOrder(next, ascending), list[k..], ascending);
  }

  function Concat(pages: seq<seq<Row>>): seq<Row> {
    if pages == [] then [] else pages[0] + Concat(pages[1..])
  }

  /** The pages that following nextCursor returns, until there is none. */
  ghost predicate IsWalk(rows: set<Row>, ascending: bool, cursor: Option<Row>, limit: nat, pages: seq<seq<Row>>)
    requires limit >= 1
    decreases |pages|
  {
    && pages != []
    && var page := ToPage(Query(rows, ascending, cursor, limit), limit);
    && pages[0] == page.items
    && (if page.nextCursor.None? then |pages| == 1 else IsWalk(rows, ascending, page.nextCursor, limit, pages[1..]))
  }

  /** The cursor is exact at the end of every page of the list but the last. */
  ghost predicate PageEndsExact(rows: set<Row>, ascending: bool, list: seq<Row>, limit: nat)
    requires limit >= 1
    decreases |list|
  {
    |list| > limit ==>
      CursorExactIn(rows, ascending, list[limit - 1]) && PageEndsExact(rows, ascending, list[limit..], limit)
  }

  /** Full pages, except that the last one may be shorter. */
  ghost predicate Full(pages: seq<seq<Row>>, limit: nat) {
    pages != [] && |pages[|pages| - 1]| <= limit && forall i :: 0 <= i < |pages| - 1 ==> |pages[i]| == limit
  }

  /** One page takes the first rows of the list, and its last row leads to the others. */
  lemma NextPage(rows: set<Row>, ascending: bool, cursor: Option<Row>, limit: nat)
    requires limit >= 1
    ensures var list := InOrder(After(rows, ascending, cursor), ascending);
            var page := ToPage(Query(rows, ascending, cursor, limit), limit);
            && page.items == (if |list| > limit then list[..limit] else list)
            && page.nextCursor == (if |list| > limit then Some(CursorOf(list[limit - 1])) else None)
            && (|list| > limit ==>
                  && list[limit - 1] in rows
                  && Holds(list[limit..], After(rows, ascending, Some(list[limit - 1])))
                  && InOrder(After(rows, ascending, Some(list[limit - 1])), ascending) == list[limit..])
  {
    hide Less, InOrder, After;
    var list := InOrder(After(rows, ascending, cursor), ascending);
    if |list| > limit {
      assert Query(rows, ascending, cursor, limit)[..limit] == list[..limit];
      RowContinues(rows, ascending, cursor, limit);
    }
  }

  /** Exact cursors lead through the whole list. */
  lemma {:induction false} ExactWalk(rows: set<Row>, ascending: bool, cursor: Option<Row>, limit: nat)
    returns (pages: seq<seq<Row>>)
    requires limit >= 1 && PageEndsExact(rows, ascending, InOrder(After(rows, ascending, cursor), ascending), limit)
    ensures IsWalk(rows, ascending, cursor, limit, pages) && Full(pages, limit)
    ensures Concat(pages) == InOrder(After(rows, ascending, cursor), ascending)
    decreases |InOrder(After(rows, ascending, cursor), ascending)|
  {
    hide Less, InOrder, After, Query, ToPage, Concat, Full;
    var list := InOrder(After(rows, ascending, cursor), ascending);
    var page := ToPage(Query(rows, ascending, cursor, limit), limit);
    NextPage(rows, ascending, cursor, limit);
    if |list| > limit {
      var rest := ExactWalk(rows, ascending, page.nextCursor, limit);
      FirstPage(page.items, rest, limit);
      assert ([page.items] + rest)[1..] == rest;
      assert list == list[..limit] + list[limit..];
      pages := [page.items] + rest;
    } else {
      OnlyPage(page.items, limit);
      pages := [page.items];
    }
  }

  lemma FirstPage(items: seq<Row>, rest: seq<seq<Row>>, limit: nat)
    requires |items| == limit && Full(rest, limit)
    ensures Concat([items] + rest) == items + Concat(rest) && Full([items] + rest, limit)
  {
    assert ([items] + rest)[1..] == rest;
  }

  lemma OnlyPage(items: seq<Row>, limit: nat)
    requires |items| <= limit
    ensures Concat([items]) == items && Full([items], limit)
  {
    assert Concat([items]) == items + Concat([]);
  }

  /** There is only one walk. */
  lemma {:induction false} WalkIsUnique(rows: set<Row>, ascending: bool, cursor: Option<Row>, limit: nat,
      a: seq<seq<Row>>, b: seq<seq<Row>>)
    requires limit >= 1 && IsWalk(rows, ascending, cursor, limit, a) && IsWalk(rows, ascending, cursor, limit, b)
    ensures a == b
    decreases |a|
  {
    hide Less, InOrder, After, Query, ToPage;
    var page := ToPage(Query(rows, ascending, cursor, limit), limit);
    assert a == [a[0]] + a[1..] && b == [b[0]] + b[1..];
    if page.nextCursor.Some? { WalkIsUnique(rows, ascending, page.nextCursor, limit, a[1..], b[1..]); }
  }

  lemma CursorIsNotLater(row: Row)
    ensures CursorOf(row) == row || Less(CursorOf(row), row, true)
    ensures CursorOf(row) == row || Less(row, CursorOf(row), false)
  {
  }

  /** A descending walk returns only rows after its cursor. */
  lemma {:induction false} WalkStays(rows: set<Row>, cursor: Option<Row>, limit: nat, pages: seq<seq<Row>>, row: Row)
    requires limit >= 1 && IsWalk(rows, false, cursor, limit, pages) && row in Concat(pages)
    ensures row in After(rows, false, cursor)
    decreases |pages|
  {
    hide Less, InOrder, Query, ToPage, CursorOf;
    var list := InOrder(After(rows, false, cursor), false);
    NextPage(rows, false, cursor, limit);
    if row in pages[0] {
      assert row in list;
    } else if |list| > limit {
      var last := list[limit - 1];
      assert last in list;
      WalkStays(rows, Some(CursorOf(last)), limit, pages[1..], row);
      CursorIsNotLater(last);
      if CursorOf(last) != last { LessChains(last, CursorOf(last), row, false); }
      if cursor.Some? { LessChains(cursor.value, last, row, false); }
    }
  }

  /** If what follows a page is the rest of the list, the cursor of its last row was exact. */
  lemma ContinuationIsExact(rows: set<Row>, ascending: bool, list: seq<Row>, limit: nat, rest: seq<seq<Row>>)
    requires 1 <= limit < |list| && Ordered(list, ascending) && list[limit - 1] in rows
    requires Holds(list[limit..], After(rows, ascending, Some(list[limit - 1])))
    requires IsWalk(rows, ascending, Some(CursorOf(list[limit - 1])), limit, rest) && Concat(rest) == list[limit..]
    ensures CursorExactIn(rows, ascending, list[limit - 1])
  {
    hide Less, InOrder, Query, ToPage, CursorOf;
    var row := list[limit - 1];
    var exact, found := After(rows, ascending, Some(row)), After(rows, ascending, Some(CursorOf(row)));
    CursorIsNotLater(row);
    if ascending && CursorOf(row) != row {
      assert Less(row, list[limit], true) && list[limit..][0] == list[limit];
      RepeatsRow(rows, row, limit, rest);
    } else if !ascending && CursorOf(row) != row {
      forall other | other in found
        ensures other in exact
      {
        LessChains(row, CursorOf(row), other, false);
      }
      forall other | other in exact
        ensures other in found
      {
        assert other in list[limit..];
        WalkStays(rows, Some(CursorOf(row)), limit, rest, other);
      }
    }
  }

  /** An ascending walk from the cursor of a finer row begins with a row that is not after that row. */
  lemma RepeatsRow(rows: set<Row>, row: Row, limit: nat, pages: seq<seq<Row>>)
    requires limit >= 1 && row in rows && Less(CursorOf(row), row, true)
    requires IsWalk(rows, true, Some(CursorOf(row)), limit, pages)
    ensures Concat(pages) != [] && !Less(row, Concat(pages)[0], true)
  {
    hide Less, InOrder, Query, ToPage, CursorOf;
    var found := After(rows, true, Some(CursorOf(row)));
    var list := InOrder(found, true);
    assert row in found && row in list;
    NextPage(rows, true, Some(CursorOf(row)), limit);
    assert pages[0][0] == list[0] && Concat(pages)[0] == list[0];
    var i :| 0 <= i < |list| && list[i] == row;
    LessIsStrict(list[0], row, true);
  }

  lemma {:induction false} WalkedExactly(rows: set<Row>, ascending: bool, cursor: Option<Row>, limit: nat,
      pages: seq<seq<Row>>)
    requires limit >= 1 && IsWalk(rows, ascending, cursor, limit, pages)
    requires Concat(pages) == InOrder(After(rows, ascending, cursor), ascending)
    ensures PageEndsExact(rows, ascending, InOrder(After(rows, ascending, cursor), ascending), limit)
    decreases |pages|
  {
    hide Less, InOrder, After, Query, ToPage, CursorOf;
    var list := InOrder(After(rows, ascending, cursor), ascending);
    NextPage(rows, ascending, cursor, limit);
    if |list| > limit {
      assert Concat(pages[1..]) == list[limit..] by {
        assert Concat(pages) == list[..limit] + Concat(pages[1..]);
        assert Concat(pages)[limit..] == Concat(pages[1..]);
      }
      ContinuationIsExact(rows, ascending, list, limit, pages[1..]);
      WalkedExactly(rows, ascending, Some(CursorOf(list[limit - 1])), limit, pages[1..]);
    }
  }

  /** From the first page, following nextCursor returns the whole list, every filtered row once and
      in order, and stops, if and only if the cursor is exact at the end of every page but the last. */
  lemma PagesAreTheListExactly(rows: set<Row>, ascending: bool, limit: nat)
    requires limit >= 1
    ensures (exists pages :: IsWalk(rows, ascending, None, limit, pages) && Concat(pages) == InOrder(rows, ascending))
       <==> PageEndsExact(rows, ascending, InOrder(rows, ascending), limit)
  {
    hide IsWalk, Concat, PageEndsExact, InOrder;
    assert After(rows, ascending, None) == rows;
    if PageEndsExact(rows, ascending, InOrder(rows, ascending), limit) {
      var pages := ExactWalk(rows, ascending, None, limit);
    }
    if pages :| IsWalk(rows, ascending, None, limit, pages) && Concat(pages) == InOrder(rows, ascending) {
      WalkedExactly(rows, ascending, None, limit, pages);
    }
  }

  lemma {:induction false} WholeTimesAreExact(rows: set<Row>, ascending: bool, list: seq<Row>, limit: nat)
    requires limit >= 1 && forall row :: row in list ==> WholeMilliseconds(row)
    ensures PageEndsExact(rows, ascending, list, limit)
    decreases |list|
  {
    hide After;
    if |list| > limit {
      assert list[limit - 1] in list;
      assert CursorOf(list[limit - 1]) == list[limit - 1];
      forall row | row in list[limit..]
        ensures row in list
      {
      }
      WholeTimesAreExact(rows, ascending, list[limit..], limit);
    }
  }

  /** So with the whole milliseconds that the service writes, the walk stops and returns every
      filtered row exactly once, in sort order, in full pages except the last. */
  lemma PagesAreTheList(rows: set<Row>, ascending: bool, limit: nat)
    requires limit >= 1 && forall row :: row in rows ==> WholeMilliseconds(row)
    ensures exists pages :: IsWalk(rows, ascending, None, limit, pages)
    ensures forall pages :: IsWalk(rows, ascending, None, limit, pages) ==>
              var list := Concat(pages);
              && |list| == |rows| && (forall row :: row in list <==> row in rows)
              && (forall i, j :: 0 <= i < j < |list| ==>
                    var before, after := if ascending then list[i] else list[j], if ascending then list[j] else list[i];
                    before.at < after.at || (before.at == after.at && before.id < after.id))
              && Full(pages, limit)
  {
    hide IsWalk, Concat, PageEndsExact, InOrder, Full, Less;
    assert After(rows, ascending, None) == rows;
    WholeTimesAreExact(rows, ascending, InOrder(rows, ascending), limit);
    var walk := ExactWalk(rows, ascending, None, limit);
    forall pages | IsWalk(rows, ascending, None, limit, pages)
      ensures pages == walk
    {
      WalkIsUnique(rows, ascending, None, limit, pages, walk);
    }
    OrderedBySortKey(Concat(walk), ascending);
  }

  lemma OrderedBySortKey(list: seq<Row>, ascending: bool)
    requires Ordered(list, ascending)
    ensures forall i, j :: 0 <= i < j < |list| ==>
              var before, after := if ascending then list[i] else list[j], if ascending then list[j] else list[i];
              before.at < after.at || (before.at == after.at && before.id < after.id)
  {
  }
}
