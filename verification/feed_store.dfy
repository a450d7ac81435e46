/** internal/store/feed_store.go: the `feeds` table and the read of one feed
    with its items ordered by publication date.

    The store is ownership-agnostic: it stores and returns the owner id, and
    the handlers decide who may see or change a feed. */
module FeedStore {
  import opened Common
  import opened Text
  import opened FeedItemStore

  /** The `store.Item` struct: one entry as listed inside a feed. */
  datatype Item = Item(id: int, title: string, description: string, link: string, publishedAt: string)

  /** The `store.Feed` struct, with the owner id the handlers compare against. */
  datatype Feed = Feed(
    id: int, userId: int, title: string, description: string, link: string, items: seq<Item>)

  /** A row of `feeds`. */
  datatype FeedRow = FeedRow(id: int, userId: int, title: string, description: string, link: string)

  /** What `DeleteFeedByID` can run into, by where it happens: its DELETE runs
      on the database handle, outside the transaction it opened, so a failure
      at `Commit` comes after the row is already gone. */
  datatype TxFault = NoFault | BeforeWrite | AtCommit

  /** The row with id `id`, if any: the look-up `FeedItemStore.FindRow` does
      on `feed_items`, here on `feeds`. */
  function FindFeed(rows: seq<FeedRow>, id: int): (r: Option<FeedRow>)
    ensures r.None? <==> forall i :: 0 <= i < |rows| ==> rows[i].id != id
    ensures r.Some? ==> r.value in rows && r.value.id == id
  {
    if rows == [] then None
    else if rows[0].id == id then Some(rows[0])
    else FindFeed(rows[1..], id)
  }

  /** Ids are distinct, positive and below the next id to hand out. */
  predicate FreshFeedIds(rows: seq<FeedRow>, nextId: int) {
    && 1 <= nextId
    && (forall i :: 0 <= i < |rows| ==> 1 <= rows[i].id < nextId)
    && (forall i, j :: 0 <= i < j < |rows| ==> rows[i].id != rows[j].id)
  }

  /** With distinct ids, the row found for an id is the one at its index. */
  lemma FindFeedAt(rows: seq<FeedRow>, nextId: int, k: int)
    requires FreshFeedIds(rows, nextId) && 0 <= k < |rows|
    ensures FindFeed(rows, rows[k].id) == Some(rows[k])
  {
    var r := FindFeed(rows, rows[k].id);
    var j :| 0 <= j < |rows| && rows[j] == r.value;
    assert j == k;
  }

  /** The rows `DELETE FROM feeds WHERE id = ?` leaves, in their order. */
  function Without(rows: seq<FeedRow>, id: int): (r: seq<FeedRow>)
    ensures forall x :: x in r <==> x in rows && x.id != id
  {
    if rows == [] then []
    else if rows[0].id == id then Without(rows[1..], id)
    else [rows[0]] + Without(rows[1..], id)
  }

  /** Ids are pairwise distinct. */
  predicate DistinctIds(rows: seq<FeedRow>) {
    forall i, j :: 0 <= i < j < |rows| ==> rows[i].id != rows[j].id
  }

  /** A row whose id no other row has can go in front. */
  lemma ConsDistinct(x: FeedRow, r: seq<FeedRow>)
    requires DistinctIds(r) && forall y :: y in r ==> y.id != x.id
    ensures DistinctIds([x] + r)
  {
    var s := [x] + r;
    forall i, j | 0 <= i < j < |s|
      ensures s[i].id != s[j].id
    {
      assert s[j] == r[j - 1];
      if i > 0 {
        assert s[i] == r[i - 1];
      } else {
        assert r[j - 1] in r;
      }
    }
  }

  /** Deleting keeps ids distinct and below the next id. */
  lemma {:induction false} WithoutFresh(rows: seq<FeedRow>, id: int, n: int)
    requires FreshFeedIds(rows, n)
    ensures FreshFeedIds(Without(rows, id), n)
  {
    var r := Without(rows, id);
    forall i | 0 <= i < |r|
      ensures 1 <= r[i].id < n
    {
      assert r[i] in rows;
    }
    WithoutDistinct(rows, id);
  }

  lemma {:induction false} WithoutDistinct(rows: seq<FeedRow>, id: int)
    requires DistinctIds(rows)
    ensures DistinctIds(Without(rows, id))
  {
    if rows != [] {
      var rest := rows[1..];
      assert DistinctIds(rest) by {
        forall i, j | 0 <= i < j < |rest|
          ensures rest[i].id != rest[j].id
        {
          assert rest[i] == rows[i + 1] && rest[j] == rows[j + 1];
        }
      }
      WithoutDistinct(rest, id);
      if rows[0].id != id {
        forall y | y in Without(rest, id)
          ensures y.id != rows[0].id
        {
          var k :| 0 <= k < |rest| && rest[k] == y;
          assert rows[k + 1] == y;
        }
        ConsDistinct(rows[0], Without(rest, id));
      }
    }
  }

  /** Deleting one id leaves what every other id finds unchanged. */
  lemma {:induction false} WithoutFind(rows: seq<FeedRow>, id: int, other: int)
    requires other != id
    ensures FindFeed(Without(rows, id), other) == FindFeed(rows, other)
  {
    if rows != [] {
      WithoutFind(rows[1..], id, other);
      if rows[0].id != id {
        assert ([rows[0]] + Without(rows[1..], id))[1..] == Without(rows[1..], id);
      }
    }
  }

  /** The rows `UPDATE feeds SET title = ?, description = ?, link = ? WHERE
      id = ?` leaves: the row with the feed's id takes its title, description
      and link; id and owner stay. */
  function Retitle(rows: seq<FeedRow>, feed: Feed): (r: seq<FeedRow>)
    ensures |r| == |rows|
    ensures forall k :: 0 <= k < |rows| ==>
      r[k] == if rows[k].id == feed.id
              then FeedRow(rows[k].id, rows[k].userId, feed.title, feed.description, feed.link)
              else rows[k]
  {
    if rows == [] then []
    else
      var row := if rows[0].id == feed.id then rows[0].(title := feed.title, description := feed.description, link := feed.link) else rows[0];
      [row] + Retitle(rows[1..], feed)
  }

  /** The update keeps every row's id, so ids stay distinct and fresh. */
  lemma RetitleFresh(rows: seq<FeedRow>, feed: Feed, n: int)
    requires FreshFeedIds(rows, n)
    ensures FreshFeedIds(Retitle(rows, feed), n)
  {
    var r := Retitle(rows, feed);
    assert forall k :: 0 <= k < |r| ==> r[k].id == rows[k].id;
  }

  /** After the update, the feed's id finds its row with the new title,
      description and link and the old owner; every other id finds what it
      found before. */
  lemma {:induction false} RetitleFind(rows: seq<FeedRow>, feed: Feed, id: int)
    ensures FindFeed(Retitle(rows, feed), id) ==
      match FindFeed(rows, id)
      case None => None
      case Some(row) => Some(if id == feed.id then FeedRow(id, row.userId, feed.title, feed.description, feed.link) else row)
  {
    if rows != [] {
      assert Retitle(rows, feed)[1..] == Retitle(rows[1..], feed);
      RetitleFind(rows[1..], feed, id);
    }
  }

  /** The indices of the item rows of feed `feedId`. */
  function RowsOf(rows: seq<ItemRow>, feedId: int): set<int> {
    set i | 0 <= i < |rows| && rows[i].feedId == feedId
  }

  /** One more row adds its index when it belongs to the feed. */
  lemma RowsOfSnoc(rows: seq<ItemRow>, feedId: int)
    requires rows != []
    ensures var n := |rows| - 1;
      RowsOf(rows, feedId) == RowsOf(rows[..n], feedId) + (if rows[n].feedId == feedId then {n} else {})
      && n !in RowsOf(rows[..n], feedId)
  {
    var n := |rows| - 1;
    assert forall i :: 0 <= i < n ==> rows[..n][i] == rows[i];
  }

  /** The item rows of feed `feedId`, in table order, as `store.Item`s: one
      item per row of that feed, and nothing else. */
  function ItemsOf(rows: seq<ItemRow>, feedId: int): (r: seq<Item>)
    ensures |r| <= |rows| && |r| == |RowsOf(rows, feedId)|
    ensures forall x :: x in r <==>
      exists i :: 0 <= i < |rows| && rows[i].feedId == feedId && x == AsItem(rows[i])
  {
    if rows == [] then []
    else
      var front := rows[..|rows| - 1];
      var last := rows[|rows| - 1];
      assert forall i :: 0 <= i < |front| ==> front[i] == rows[i];
      RowsOfSnoc(rows, feedId);
      ItemsOf(front, feedId) + if last.feedId == feedId then [AsItem(last)] else []
  }

  /** The five columns the item query selects, scanned into a `store.Item`;
      the row's feed id and read time are not part of it. */
  function AsItem(row: ItemRow): (item: Item)
    ensures item.id == row.id && item.title == row.title && item.description == row.description
    ensures item.link == row.link && item.publishedAt == row.publishedAt
  {
    Item(row.id, row.title, row.description, row.link, row.publishedAt)
  }

  /** Each item is published no later than the next. */
  predicate Ordered(s: seq<Item>) {
    forall i :: 0 < i < |s| ==> LessEq(s[i - 1].publishedAt, s[i].publishedAt)
  }

  /** Every item is published no later than every item after it. */
  predicate Sorted(s: seq<Item>) {
    forall i, j :: 0 <= i < j < |s| ==> LessEq(s[i].publishedAt, s[j].publishedAt)
  }

  lemma {:induction false} OrderedSorted(s: seq<Item>)
    requires Ordered(s)
    ensures Sorted(s)
  {
    if |s| > 1 {
      var t := s[..|s| - 1];
      assert Ordered(t);
      OrderedSorted(t);
      forall i | 0 <= i < |s| - 1
        ensures LessEq(s[i].publishedAt, s[|s| - 1].publishedAt)
      {
        if i < |s| - 2 {
          LessEqTransitive(s[i].publishedAt, s[|s| - 2].publishedAt, s[|s| - 1].publishedAt);
        }
      }
    }
  }

  /** An item published no later than the head of an ordered list can go in
      front of it. */
  lemma ConsOrdered(a: Item, r: seq<Item>)
    requires Ordered(r) && (r == [] || LessEq(a.publishedAt, r[0].publishedAt))
    ensures Ordered([a] + r)
  {
    var s := [a] + r;
    forall i | 0 < i < |s|
      ensures LessEq(s[i - 1].publishedAt, s[i].publishedAt)
    {
      assert s[i] == r[i - 1];
      if i > 1 {
        assert s[i - 1] == r[i - 2];
      }
    }
  }

  /** Puts `x` after every item published no later than it. */
  function InsertByDate(s: seq<Item>, x: Item): (r: seq<Item>)
    requires Ordered(s)
    ensures Ordered(r) && multiset(r) == multiset(s) + multiset{x}
    ensures s != [] ==> r[0] == x || r[0] == s[0]
  {
    if s == [] then [x]
    else if !LessEq(s[0].publishedAt, x.publishedAt) then
      LessEqTotal(s[0].publishedAt, x.publishedAt);
      ConsOrdered(x, s);
      [x] + s
    else
      var tail := s[1..];
      assert Ordered(tail) by {
        forall i | 0 < i < |tail|
          ensures LessEq(tail[i - 1].publishedAt, tail[i].publishedAt)
        {
          assert tail[i - 1] == s[i] && tail[i] == s[i + 1];
        }
      }
      var rest := InsertByDate(tail, x);
      assert tail != [] ==> LessEq(s[0].publishedAt, tail[0].publishedAt);
      ConsOrdered(s[0], rest);
      assert s == [s[0]] + tail;
      [s[0]] + rest
  }

  /** `ORDER BY published_at` over the BINARY collation: an insertion sort,
      which keeps items with equal dates in table order. */
  function SortByPublished(s: seq<Item>): (r: seq<Item>)
    ensures Ordered(r) && multiset(r) == multiset(s)
  {
    if s == [] then []
    else
      assert s == s[..|s| - 1] + [s[|s| - 1]];
      InsertByDate(SortByPublished(s[..|s| - 1]), s[|s| - 1])
  }

  /** The item loop of `GetFeedByID` as written: `rows.Next()` returning false
      ends the loop whether the result set is exhausted or the driver failed
      at row `scanStop`, and `rows.Err()` is never asked, so the items read
      so far come back with no error. */
  function ReadItemsAsWritten(resultSet: seq<Item>, scanStop: Option<nat>): (r: Result<seq<Item>, DbError>)
    ensures r.Ok? && r.value <= resultSet
    ensures scanStop.None? ==> r.value == resultSet
    ensures scanStop.Some? && scanStop.value < |resultSet| ==> |r.value| == scanStop.value
  {
    if scanStop.Some? && scanStop.value < |resultSet| then Ok(resultSet[..scanStop.value]) else Ok(resultSet)
  }

  /** The discrepancy: a feed with items whose read fails after `k` of them
      is answered successfully with only those `k`, so its remaining items are
      missing without any error. */
  lemma ScanFailureLooksComplete(itemRows: seq<ItemRow>, feedId: int, k: nat)
    requires k < |ItemsOf(itemRows, feedId)|
    ensures var all := SortByPublished(ItemsOf(itemRows, feedId));
      && ReadItemsAsWritten(all, Some(k)).Ok?
      && multiset(ReadItemsAsWritten(all, Some(k)).value) != multiset(ItemsOf(itemRows, feedId))
  {
    var all := SortByPublished(ItemsOf(itemRows, feedId));
    assert |multiset(all)| == |ItemsOf(itemRows, feedId)|;
    assert |multiset(ReadItemsAsWritten(all, Some(k)).value)| == k;
  }

  /** The ordered result set holds as many items as were selected. */
  lemma SortedResultSet(selected: seq<Item>)
    ensures Sorted(SortByPublished(selected)) && |SortByPublished(selected)| == |selected|
  {
    OrderedSorted(SortByPublished(selected));
    assert |multiset(SortByPublished(selected))| == |multiset(selected)|;
  }

  /** The `rows.Next()` loop: reads the result set row by row until it is
      exhausted or the driver fails at row `scanStop`; `failed` is what
      `rows.Err()` reports afterwards. */
  method ScanItems(resultSet: seq<Item>, scanStop: Option<nat>) returns (items: seq<Item>, failed: bool)
    ensures failed <==> scanStop.Some? && scanStop.value < |resultSet|
    ensures failed ==> items == resultSet[..scanStop.value]
    ensures !failed ==> items == resultSet
    ensures Ok(items) == ReadItemsAsWritten(resultSet, scanStop)
  {
    items := [];
    var i := 0;
    while i < |resultSet|
      invariant 0 <= i <= |resultSet|
      invariant items == resultSet[..i]
      invariant scanStop.Some? ==> i <= scanStop.value
    {
      if scanStop == Some(i) {
        return items, true;
      }
      items := items + [resultSet[i]];
      i := i + 1;
    }
    assert items == resultSet;
    failed := false;
  }

  /** The rows of `feeds` behind `Sqlite3FeedStore`. */
  class FeedTable {
    var rows: seq<FeedRow>
    var nextId: int

    ghost predicate Valid()
      reads this
    {
      FreshFeedIds(rows, nextId)
    }

    constructor ()
      ensures Valid() && rows == [] && nextId == 1
    {
      rows := [];
      nextId := 1;
    }

    /** `CreateFeed`: inserts title, description, link and owner, and returns
        the feed with its new id; reading that id back finds what was stored.
        On any failure the table is unchanged. */
    method CreateFeed(feed: Feed, fault: bool) returns (r: Result<Feed, DbError>)
      requires Valid()
      modifies this
      ensures Valid()
      ensures fault ==> r == Err(Faulted) && rows == old(rows) && nextId == old(nextId)
      ensures !fault ==> r == Ok(feed.(id := old(nextId)))
      ensures !fault ==> rows == old(rows) + [FeedRow(old(nextId), feed.userId, feed.title, feed.description, feed.link)]
      ensures r.Ok? ==> FindFeed(old(rows), r.value.id).None?
      ensures r.Ok? ==> FindFeed(rows, r.value.id) == Some(FeedRow(r.value.id, feed.userId, feed.title, feed.description, feed.link))
    {
      if fault {
        return Err(Faulted);
      }
      var id := nextId;
      var row := FeedRow(id, feed.userId, feed.title, feed.description, feed.link);
      rows := rows + [row];
      nextId := nextId + 1;
      FindFeedAt(rows, nextId, |rows| - 1);
      r := Ok(feed.(id := id));
    }

    /** `GetFeedByID`: `Ok(None)` for a missing id; otherwise the feed's row
        with every item of that feed, ordered by publication date. `scanStop`
        is the index of the item row at which the driver fails while the
        result set is read, if it does; that failure is reported, as checking
        `rows.Err()` after the loop would report it. */
    method GetFeedByID(id: int, itemTable: FeedItemTable, fault: bool, scanStop: Option<nat>)
      returns (r: Result<Option<Feed>, DbError>)
      ensures r.Err? <==>
        fault || (FindFeed(rows, id).Some? && scanStop.Some? && scanStop.value < |ItemsOf(itemTable.rows, id)|)
      ensures r.Err? ==> r.error == Faulted
      ensures r.Ok? ==> (r.value.None? <==> FindFeed(rows, id).None?)
      ensures r.Ok? && r.value.Some? ==>
        var f := r.value.value;
        && FindFeed(rows, id) == Some(FeedRow(f.id, f.userId, f.title, f.description, f.link))
        && Sorted(f.items)
        && multiset(f.items) == multiset(ItemsOf(itemTable.rows, id))
    {
      if fault {
        return Err(Faulted);
      }
      var found := FindFeed(rows, id);
      if found.None? {
        return Ok(None);
      }
      var row := found.value;
      var selected := ItemsOf(itemTable.rows, id);
      var resultSet := SortByPublished(selected);
      SortedResultSet(selected);
      var items, failed := ScanItems(resultSet, scanStop);
      if failed {
        return Err(Faulted);
      }
      r := Ok(Some(Feed(row.id, row.userId, row.title, row.description, row.link, items)));
    }

    /** `UpdateFeed`: overwrites title, description and link of the row with the
        feed's id, keeping its id and owner; `NoRows` when there is none. */
    method UpdateFeed(feed: Feed, fault: bool) returns (r: Outcome<DbError>)
      requires Valid()
      modifies this
      ensures Valid() && nextId == old(nextId)
      ensures fault ==> r == Fail(Faulted)
      ensures !fault ==> (r == Fail(NoRows) <==> FindFeed(old(rows), feed.id).None?)
      ensures !fault && FindFeed(old(rows), feed.id).Some? ==> r == Pass
      ensures r.Fail? ==> rows == old(rows)
      ensures r == Pass ==> rows == Retitle(old(rows), feed)
      ensures r == Pass ==>
        FindFeed(rows, feed.id) == Some(FeedRow(feed.id, FindFeed(old(rows), feed.id).value.userId, feed.title, feed.description, feed.link))
    {
      if fault {
        return Fail(Faulted);
      }
      if FindFeed(rows, feed.id).None? {
        return Fail(NoRows);
      }
      RetitleFind(rows, feed, feed.id);
      RetitleFresh(rows, feed, nextId);
      rows := Retitle(rows, feed);
      r := Pass;
    }

    /** `DeleteFeedByID`: removes the row with that id, `NoRows` when there is
        none. The feed's items stay in `feed_items`. A failure at `Commit` is
        reported although the row is already gone. */
    method DeleteFeedByID(id: int, fault: TxFault) returns (r: Outcome<DbError>)
      requires Valid()
      modifies this
      ensures Valid() && nextId == old(nextId)
      ensures fault == BeforeWrite ==> r == Fail(Faulted) && rows == old(rows)
      ensures fault != BeforeWrite && FindFeed(old(rows), id).None? ==> r == Fail(NoRows) && rows == old(rows)
      ensures fault != BeforeWrite && FindFeed(old(rows), id).Some? ==>
        && rows == Without(old(rows), id)
        && FindFeed(rows, id).None?
        && (forall other :: other != id ==> FindFeed(rows, other) == FindFeed(old(rows), other))
        && r == if fault == AtCommit then Fail(Faulted) else Pass
    {
      if fault == BeforeWrite {
        return Fail(Faulted);
      }
      if FindFeed(rows, id).None? {
        return Fail(NoRows);
      }
      WithoutFresh(rows, id, nextId);
      forall other | other != id
        ensures FindFeed(Without(rows, id), other) == FindFeed(rows, other)
      {
        WithoutFind(rows, id, other);
      }
      rows := Without(rows, id);
      r := if fault == AtCommit then Fail(Faulted) else Pass;
    }
  }

}
