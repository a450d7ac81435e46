/** internal/store/feed_item_store.go: the `feed_items` table.

    The table is unique on (feed_id, link): the sync loop relies on that
    constraint, and its violation is reported as the distinct error kind
    `UniqueViolation` rather than recognised from message text. A row's id is
    the next rowid. Every statement runs in its own transaction, so a failed
    statement leaves the table as it was. */
module FeedItemStore {
  import opened Common

  /** The `store.FeedItem` struct. */
  datatype FeedItem = FeedItem(
    id: int, feedId: int, title: string, description: string, link: string,
    publishedAt: string, readAt: string)

  /** A row of `feed_items`; `read_at` is NULL until the item is marked read. */
  datatype ItemRow = ItemRow(
    id: int, feedId: int, title: string, description: string, link: string,
    publishedAt: string, readAt: Option<string>)

  /** The table's rows in insertion order and the id the next insert receives. */
  datatype ItemsState = ItemsState(rows: seq<ItemRow>, nextId: int)

  /** Some row already holds the pair (feedId, link). */
  predicate HasKey(rows: seq<ItemRow>, feedId: int, link: string) {
    exists i :: 0 <= i < |rows| && rows[i].feedId == feedId && rows[i].link == link
  }

  /** The (feed_id, link) uniqueness constraint. */
  predicate UniqueKeys(rows: seq<ItemRow>) {
    forall i, j :: 0 <= i < j < |rows| ==> rows[i].feedId != rows[j].feedId || rows[i].link != rows[j].link
  }

  /** Ids are distinct, positive and below the next id to hand out. */
  predicate FreshIds(rows: seq<ItemRow>, nextId: int) {
    && 1 <= nextId
    && (forall i :: 0 <= i < |rows| ==> 1 <= rows[i].id < nextId)
    && (forall i, j :: 0 <= i < j < |rows| ==> rows[i].id != rows[j].id)
  }

  predicate Wf(t: ItemsState) {
    UniqueKeys(t.rows) && FreshIds(t.rows, t.nextId)
  }

  /** The INSERT of `CreateFeedItem`: one new row with the item's feed id,
      title, description, link and published_at and a fresh id, unless the
      (feed_id, link) pair is taken or the database fails. */
  function Insert(t: ItemsState, item: FeedItem, fault: bool): (res: (ItemsState, Result<FeedItem, DbError>))
    ensures Wf(t) ==> Wf(res.0)
    ensures res.1.Ok? <==> !fault && !HasKey(t.rows, item.feedId, item.link)
    ensures res.1.Err? ==> res.0 == t
    ensures !fault && HasKey(t.rows, item.feedId, item.link) ==> res.1 == Err(UniqueViolation)
    ensures res.1.Ok? ==>
      && res.1.value == item.(id := t.nextId)
      && res.0.nextId > t.nextId
      && res.0.rows == t.rows + [ItemRow(t.nextId, item.feedId, item.title, item.description, item.link, item.publishedAt, None)]
    ensures HasKey(res.0.rows, item.feedId, item.link) <==> !fault || HasKey(t.rows, item.feedId, item.link)
  {
    if fault then (t, Err(Faulted))
    else if HasKey(t.rows, item.feedId, item.link) then (t, Err(UniqueViolation))
    else
      var row := ItemRow(t.nextId, item.feedId, item.title, item.description, item.link, item.publishedAt, None);
      var rows := t.rows + [row];
      assert rows[|t.rows|] == row;
      assert forall i :: 0 <= i < |t.rows| ==> rows[i] == t.rows[i];
      assert HasKey(rows, item.feedId, item.link);
      (ItemsState(t.rows + [row], t.nextId + 1), Ok(item.(id := t.nextId)))
  }

  /** The row with id `id`, if any. */
  function FindRow(rows: seq<ItemRow>, id: int): (r: Option<ItemRow>)
    ensures r.None? <==> forall i :: 0 <= i < |rows| ==> rows[i].id != id
    ensures r.Some? ==> r.value in rows && r.value.id == id
  {
    if rows == [] then None
    else if rows[0].id == id then Some(rows[0])
    else FindRow(rows[1..], id)
  }

  /** The UPDATE of `UpdateFeedItem`: every row with that id gets `read_at`. */
  function MarkRead(rows: seq<ItemRow>, id: int, readAt: string): (r: seq<ItemRow>)
    ensures |r| == |rows|
    ensures forall i :: 0 <= i < |rows| ==>
      r[i] == if rows[i].id == id then rows[i].(readAt := Some(readAt)) else rows[i]
  {
    if rows == [] then []
    else [if rows[0].id == id then rows[0].(readAt := Some(readAt)) else rows[0]] + MarkRead(rows[1..], id, readAt)
  }

  /** Marking a row read keeps every row's id, feed id and link, so the
      table stays well formed. */
  lemma MarkReadWf(t: ItemsState, id: int, readAt: string)
    ensures Wf(t) ==> Wf(t.(rows := MarkRead(t.rows, id, readAt)))
  {
    var r := MarkRead(t.rows, id, readAt);
    assert forall i :: 0 <= i < |r| ==> r[i].id == t.rows[i].id && r[i].feedId == t.rows[i].feedId && r[i].link == t.rows[i].link;
  }

  /** database/sql refuses to run a statement when the number of bound
      arguments differs from its number of placeholders. */
  function Bind(placeholders: nat, given: nat): (r: Outcome<DbError>)
    ensures r == Pass <==> placeholders == given
  {
    if placeholders == given then Pass else Fail(ArgumentCount(placeholders, given))
  }

  /** `UPDATE feed_items SET read_at = ? WHERE id = ?` with `given` arguments
      bound, followed by the zero-rows check: `NoRows` when no row has the id. */
  function ExecMarkRead(t: ItemsState, item: FeedItem, given: nat, fault: bool): (res: (ItemsState, Outcome<DbError>))
    ensures res.1 == Pass <==> !fault && given == 2 && FindRow(t.rows, item.id).Some?
    ensures res.1.Fail? ==> res.0 == t
    ensures !fault && given == 2 && FindRow(t.rows, item.id).None? ==> res.1 == Fail(NoRows)
    ensures res.1 == Pass ==> res.0 == t.(rows := MarkRead(t.rows, item.id, item.readAt))
    ensures Wf(t) ==> Wf(res.0)
  {
    MarkReadWf(t, item.id, item.readAt);
    if fault then (t, Fail(Faulted))
    else match Bind(2, given)
      case Fail(e) => (t, Fail(e))
      case Pass =>
        if FindRow(t.rows, item.id).None? then (t, Fail(NoRows))
        else (t.(rows := MarkRead(t.rows, item.id, item.readAt)), Pass)
  }

  /** `UpdateFeedItem` as written binds only `ReadAt` (feed_item_store.go:108),
      so the statement is refused whatever the table holds. */
  function UpdateFeedItemAsWritten(t: ItemsState, item: FeedItem, fault: bool): (res: (ItemsState, Outcome<DbError>))
    ensures res.0 == t && res.1.Fail?
    ensures !fault ==> res.1 == Fail(ArgumentCount(2, 1))
  {
    ExecMarkRead(t, item, 1, fault)
  }

  /** The discrepancy: even when the row exists, the update as written fails
      and marks nothing read, while binding both arguments succeeds and sets
      `read_at` of exactly that row. */
  lemma UpdateFeedItemAsWrittenNeverMarksRead(t: ItemsState, item: FeedItem)
    requires FindRow(t.rows, item.id).Some?
    ensures UpdateFeedItemAsWritten(t, item, false) == (t, Fail(ArgumentCount(2, 1)))
    ensures ExecMarkRead(t, item, 2, false).1 == Pass
    ensures exists i :: 0 <= i < |t.rows| && t.rows[i].id == item.id
                     && ExecMarkRead(t, item, 2, false).0.rows[i].readAt == Some(item.readAt)
  {
    var row := FindRow(t.rows, item.id).value;
    var i :| 0 <= i < |t.rows| && t.rows[i] == row;
    assert ExecMarkRead(t, item, 2, false).0.rows[i].readAt == Some(item.readAt);
  }

  /** The rows of `feed_items` behind `Sqlite3FeedItemStore`. */
  class FeedItemTable {
    var rows: seq<ItemRow>
    var nextId: int

    function State(): ItemsState
      reads this
    {
      ItemsState(rows, nextId)
    }

    ghost predicate Valid()
      reads this
    {
      Wf(State())
    }

    constructor ()
      ensures Valid() && rows == [] && nextId == 1
    {
      rows := [];
      nextId := 1;
    }

    /** `CreateFeedItem`: on success the returned item is the argument with its
        new id; on any failure the table is unchanged (deferred rollback). */
    method CreateFeedItem(feedItem: FeedItem, fault: bool) returns (r: Result<FeedItem, DbError>)
      modifies this
      ensures (State(), r) == Insert(old(State()), feedItem, fault)
      ensures r.Ok? ==> rows == old(rows) + [ItemRow(r.value.id, feedItem.feedId, feedItem.title, feedItem.description, feedItem.link, feedItem.publishedAt, None)]
      ensures r.Err? ==> rows == old(rows) && nextId == old(nextId)
    {
      if fault {
        return Err(Faulted);
      }
      if HasKey(rows, feedItem.feedId, feedItem.link) {
        return Err(UniqueViolation);
      }
      var id := nextId;
      rows := rows + [ItemRow(id, feedItem.feedId, feedItem.title, feedItem.description, feedItem.link, feedItem.publishedAt, None)];
      nextId := nextId + 1;
      r := Ok(feedItem.(id := id));
    }

    /** `GetFeedItemByID`: `Ok(None)` for a missing id, distinct from an error.
        Only id, title, description, link and published_at are read; the
        item's FeedID and ReadAt keep their zero values. */
    function GetFeedItemByID(id: int, fault: bool): (r: Result<Option<FeedItem>, DbError>)
      reads this
      ensures fault <==> r.Err?
      ensures !fault ==> (r.value.None? <==> forall i :: 0 <= i < |rows| ==> rows[i].id != id)
      ensures r.Ok? && r.value.Some? ==>
        exists i :: 0 <= i < |rows| && rows[i].id == id
          && r.value.value == FeedItem(id, 0, rows[i].title, rows[i].description, rows[i].link, rows[i].publishedAt, "")
    {
      if fault then Err(Faulted)
      else match FindRow(rows, id)
        case None => Ok(None)
        case Some(row) => Ok(Some(FeedItem(row.id, 0, row.title, row.description, row.link, row.publishedAt, "")))
    }

    /** `UpdateFeedItem` with both arguments bound (`ReadAt`, `ID`): sets
        `read_at` of row `feedItem.id` and nothing else; `NoRows` when no row
        has that id. */
    method UpdateFeedItem(feedItem: FeedItem, fault: bool) returns (r: Outcome<DbError>)
      requires Valid()
      modifies this
      ensures Valid()
      ensures (State(), r) == ExecMarkRead(old(State()), feedItem, 2, fault)
    {
      if fault {
        return Fail(Faulted);
      }
      if FindRow(rows, feedItem.id).None? {
        return Fail(NoRows);
      }
      MarkReadWf(State(), feedItem.id, feedItem.readAt);
      rows := MarkRead(rows, feedItem.id, feedItem.readAt);
      r := Pass;
    }
  }
}
