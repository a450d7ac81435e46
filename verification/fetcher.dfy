/** internal/fetcher/fetcher.go: one synchronisation of a feed.

    The feed is looked up, its document downloaded and parsed, and every
    parsed entry offered to the item table in document order. An entry whose
    (feed, link) pair is already stored is skipped; any other failed insert is
    logged and skipped as well; only successful inserts are counted.

    Downloading and parsing are the parameter `fetch`; the wall clock is the
    parameter `clock`; which inserts fail for reasons outside the model is the
    parameter `insertFaults`, by entry index. */
module Fetcher {
  import opened Common
  import opened Utils
  import opened FeedItemStore
  import opened FeedStore

  /** A point in time, as nanoseconds since the Unix epoch (Go's
      `time.Time`); unlike the session store's whole seconds. */
  type NanoInstant = int

  /** What the sync reads off the wall clock: the current instant, the
      current calendar date, and the RFC 3339 rendering of instants. */
  datatype Clock = Clock(now: NanoInstant, today: Date, rfc3339: NanoInstant -> string)

  /** One parsed entry: its text fields, the raw publication date, and the
      parser's own reading of that date when it managed one. */
  datatype DocItem = DocItem(
    title: string, description: string, link: string,
    published: string, publishedParsed: Option<NanoInstant>)

  /** The result of downloading and parsing a feed's URL. */
  datatype Fetched = Unavailable(message: string) | Document(items: seq<DocItem>)

  /** Why a sync stopped before looking at any entry. */
  datatype SyncError = Lookup(cause: DbError) | FeedNotFound | Download(message: string)

  /** The stored publication date: the parser's time in RFC 3339 when it has
      one, else the raw string through `ParseFeedDate`, else the current
      instant in RFC 3339. */
  function PublishedAt(item: DocItem, clock: Clock): string {
    if item.publishedParsed.Some? then clock.rfc3339(item.publishedParsed.value)
    else if item.published != "" then ParseFeedDate(item.published, clock.today)
    else clock.rfc3339(clock.now)
  }

  /** When the parser has its own time, the raw string makes no difference
      to the stored date. The priority: the parser's time whenever it has
      one; the raw string only without it; the current instant only when
      both are missing. */
  lemma PublishedAtPriority(item: DocItem, clock: Clock)
    ensures item.publishedParsed.Some? ==>
      PublishedAt(item, clock) == clock.rfc3339(item.publishedParsed.value)
      && PublishedAt(item, clock) == PublishedAt(item.(published := ""), clock)
    ensures item.publishedParsed.None? && item.published != "" ==>
      PublishedAt(item, clock) == ParseFeedDate(item.published, clock.today)
    ensures item.publishedParsed.None? && item.published == "" ==>
      PublishedAt(item, clock) == clock.rfc3339(clock.now)
  {
  }

  /** An entry with a raw date the parser could not read is stored with a
      `YYYY-MM-DD 00:00:00` date: its own when it is RFC 1123Z, today's
      otherwise. */
  lemma PublishedAtFallback(item: DocItem, clock: Clock)
    requires item.publishedParsed.None? && item.published != "" && ValidDate(clock.today)
    ensures DateShaped(PublishedAt(item, clock))
    ensures ParseRFC1123Z(item.published).None? ==> PublishedAt(item, clock) == FormatDate(clock.today)
    ensures ParseRFC1123Z(item.published).Some? ==>
      PublishedAt(item, clock) == FormatDate(ParseRFC1123Z(item.published).value.date)
  {
    ParseFeedDateShape(item.published, clock.today);
  }

  /** The `store.FeedItem` built for an entry: no id yet, never read. */
  function Candidate(feedId: int, item: DocItem, clock: Clock): FeedItem {
    FeedItem(0, feedId, item.title, item.description, item.link, PublishedAt(item, clock), "")
  }

  /** The item offered for an entry belongs to the synced feed, carries the
      entry's text fields and its publication date, and is new and unread. */
  lemma CandidateFields(feedId: int, item: DocItem, clock: Clock)
    ensures var c := Candidate(feedId, item, clock);
      && c.id == 0 && c.feedId == feedId && c.readAt == ""
      && c.title == item.title && c.description == item.description && c.link == item.link
      && c.publishedAt == PublishedAt(item, clock)
  {
  }

  /** The inserts of one sync, entry by entry in document order, and the
      number that succeeded. */
  function Ingest(t: ItemsState, feedId: int, items: seq<DocItem>, clock: Clock, faults: set<nat>): (res: (ItemsState, nat))
    ensures Wf(t) ==> Wf(res.0)
    ensures |t.rows| <= |res.0.rows| && res.0.rows[..|t.rows|] == t.rows
    ensures |res.0.rows| == |t.rows| + res.1 && res.1 <= |items|
    ensures forall j :: |t.rows| <= j < |res.0.rows| ==> res.0.rows[j].feedId == feedId
  {
    if items == [] then (t, 0)
    else
      var k := |items| - 1;
      var (t1, n) := Ingest(t, feedId, items[..k], clock, faults);
      var (t2, n2) := Step(t1, n, feedId, items[k], clock, k in faults);
      assert t2.rows[..|t1.rows|] == t1.rows;
      assert t2.rows[..|t.rows|] == t1.rows[..|t.rows|];
      (t2, n2)
  }

  /** One entry of the sync: the insert of its candidate, and the count of
      successes after it. */
  function Step(t: ItemsState, n: nat, feedId: int, item: DocItem, clock: Clock, fault: bool): (ItemsState, nat) {
    var (t2, r) := Insert(t, Candidate(feedId, item, clock), fault);
    (t2, if r.Ok? then n + 1 else n)
  }

  /** One more entry is one more insert after the earlier ones. */
  lemma IngestSnoc(t: ItemsState, feedId: int, items: seq<DocItem>, i: nat, clock: Clock, faults: set<nat>,
                   prev: ItemsState, n: nat)
    requires i < |items| && Ingest(t, feedId, items[..i], clock, faults) == (prev, n)
    ensures Ingest(t, feedId, items[..i + 1], clock, faults) == Step(prev, n, feedId, items[i], clock, i in faults)
  {
    var s := items[..i + 1];
    assert s != [] && |s| - 1 == i;
    assert s[..i] == items[..i] && s[i] == items[i];
  }

  /** A stored pair stays stored when rows are only appended. */
  lemma HasKeyGrows(a: seq<ItemRow>, b: seq<ItemRow>, feedId: int, link: string)
    requires |a| <= |b| && b[..|a|] == a && HasKey(a, feedId, link)
    ensures HasKey(b, feedId, link)
  {
    var i :| 0 <= i < |a| && a[i].feedId == feedId && a[i].link == link;
    assert b[i] == a[i];
  }

  /** One step only appends, and an entry whose insert did not fault is
      stored after it. */
  lemma StepKeeps(t: ItemsState, n: nat, feedId: int, item: DocItem, clock: Clock, fault: bool)
    ensures var after := Step(t, n, feedId, item, clock, fault).0;
      && |t.rows| <= |after.rows| && after.rows[..|t.rows|] == t.rows
      && (!fault ==> HasKey(after.rows, feedId, item.link))
  {
    var after := Step(t, n, feedId, item, clock, fault).0;
    assert after.rows[..|t.rows|] == t.rows;
  }

  /** After a sync, every entry whose insert did not fault for an outside
      reason is stored: newly, or because it already was. */
  lemma {:induction false} IngestCovers(t: ItemsState, feedId: int, items: seq<DocItem>, clock: Clock, faults: set<nat>)
    ensures forall k :: 0 <= k < |items| && k !in faults ==>
      HasKey(Ingest(t, feedId, items, clock, faults).0.rows, feedId, items[k].link)
  {
    if items != [] {
      var k := |items| - 1;
      var front := items[..k];
      IngestCovers(t, feedId, front, clock, faults);
      var prev := Ingest(t, feedId, front, clock, faults);
      IngestSnoc(t, feedId, items, k, clock, faults, prev.0, prev.1);
      assert items[..k + 1] == items;
      var after := Step(prev.0, prev.1, feedId, items[k], clock, k in faults).0;
      StepKeeps(prev.0, prev.1, feedId, items[k], clock, k in faults);
      assert forall j :: 0 <= j < k ==> front[j] == items[j];
      CoversExtend(prev.0.rows, after.rows, feedId, items, faults);
    }
  }

  /** Entries stored before one more step stay stored, and the last entry is
      stored when its insert did not fault. */
  lemma CoversExtend(a: seq<ItemRow>, b: seq<ItemRow>, feedId: int, items: seq<DocItem>, faults: set<nat>)
    requires items != [] && |a| <= |b| && b[..|a|] == a
    requires forall k :: 0 <= k < |items| - 1 && k !in faults ==> HasKey(a, feedId, items[k].link)
    requires |items| - 1 !in faults ==> HasKey(b, feedId, items[|items| - 1].link)
    ensures forall k :: 0 <= k < |items| && k !in faults ==> HasKey(b, feedId, items[k].link)
  {
    forall k | 0 <= k < |items| - 1 && k !in faults
      ensures HasKey(b, feedId, items[k].link)
    {
      HasKeyGrows(a, b, feedId, items[k].link);
    }
  }

  /** A sync whose every entry is already stored changes nothing and counts
      nothing. */
  lemma {:induction false} IngestStored(t: ItemsState, feedId: int, items: seq<DocItem>, clock: Clock, faults: set<nat>)
    requires forall k :: 0 <= k < |items| ==> HasKey(t.rows, feedId, items[k].link)
    ensures Ingest(t, feedId, items, clock, faults) == (t, 0)
  {
    if items != [] {
      var k := |items| - 1;
      assert forall j :: 0 <= j < k ==> items[..k][j] == items[j];
      IngestStored(t, feedId, items[..k], clock, faults);
    }
  }

  /** Syncing the same document again adds nothing and counts nothing,
      whatever fails the second time. */
  lemma ResyncAddsNothing(t: ItemsState, feedId: int, items: seq<DocItem>, clock: Clock, again: Clock, faults: set<nat>)
    ensures var first := Ingest(t, feedId, items, clock, {}).0;
      Ingest(first, feedId, items, again, faults) == (first, 0)
  {
    IngestCovers(t, feedId, items, clock, {});
    IngestStored(Ingest(t, feedId, items, clock, {}).0, feedId, items, again, faults);
  }

  /** Over a well-formed table, the rows a sync adds are exactly the entries
      that were not stored before: no (feed, link) pair is stored twice. */
  lemma IngestAddsOnlyNew(t: ItemsState, feedId: int, items: seq<DocItem>, clock: Clock, faults: set<nat>)
    requires Wf(t)
    ensures var after := Ingest(t, feedId, items, clock, faults).0;
      forall j :: |t.rows| <= j < |after.rows| ==> !HasKey(t.rows, feedId, after.rows[j].link)
  {
    var after := Ingest(t, feedId, items, clock, faults).0;
    forall j | |t.rows| <= j < |after.rows|
      ensures !HasKey(t.rows, feedId, after.rows[j].link)
    {
      forall i | 0 <= i < |t.rows|
        ensures t.rows[i].feedId != feedId || t.rows[i].link != after.rows[j].link
      {
        assert after.rows[i] == t.rows[i];
      }
    }
  }

  /** The `Fetcher`: the two stores it works with. */
  class Fetcher {
    const feedStore: FeedTable
    const feedItemStore: FeedItemTable

    constructor (feedStore: FeedTable, feedItemStore: FeedItemTable)
      ensures this.feedStore == feedStore && this.feedItemStore == feedItemStore
    {
      this.feedStore := feedStore;
      this.feedItemStore := feedItemStore;
    }

    /** The loop over the parsed entries of `FetchFeedItems`: one insert per
        entry in document order; a duplicate is expected and any other failure
        is logged, and both are skipped; successes are counted. */
    method StoreEntries(feedId: int, items: seq<DocItem>, clock: Clock, insertFaults: set<nat>) returns (newItemsCount: nat)
      requires feedItemStore.Valid()
      modifies feedItemStore
      ensures feedItemStore.Valid()
      ensures (feedItemStore.State(), newItemsCount) == Ingest(old(feedItemStore.State()), feedId, items, clock, insertFaults)
    {
      ghost var start := feedItemStore.State();
      newItemsCount := 0;
      var i := 0;
      while i < |items|
        invariant 0 <= i <= |items|
        invariant (feedItemStore.State(), newItemsCount) == Ingest(start, feedId, items[..i], clock, insertFaults)
      {
        IngestSnoc(start, feedId, items, i, clock, insertFaults, feedItemStore.State(), newItemsCount);
        var feedItem := Candidate(feedId, items[i], clock);
        var created := feedItemStore.CreateFeedItem(feedItem, i in insertFaults);
        if created.Ok? {
          newItemsCount := newItemsCount + 1;
        }
        i := i + 1;
      }
      assert items[..i] == items;
    }

    /** `FetchFeedItems`: the sync's outcome and the number of entries it
        stored (the source only logs that number). A lookup failure, a
        missing feed and a failed download each end the sync with nothing
        stored; otherwise the item table is the result of `Ingest` on the
        document's entries, and the sync succeeds whatever the inserts did. */
    method FetchFeedItems(feedId: int, fetch: string -> Fetched, clock: Clock, lookupFault: bool, insertFaults: set<nat>)
      returns (err: Option<SyncError>, newItemsCount: nat)
      requires feedItemStore.Valid()
      modifies feedItemStore
      ensures feedItemStore.Valid()
      ensures lookupFault ==> err == Some(Lookup(Faulted))
      ensures !lookupFault && FindFeed(feedStore.rows, feedId).None? ==> err == Some(FeedNotFound)
      ensures err.Some? ==> newItemsCount == 0 && feedItemStore.State() == old(feedItemStore.State())
      ensures !lookupFault && FindFeed(feedStore.rows, feedId).Some? ==>
        match fetch(FindFeed(feedStore.rows, feedId).value.link)
        case Unavailable(message) => err == Some(Download(message))
        case Document(items) =>
          && err == None
          && (feedItemStore.State(), newItemsCount) == Ingest(old(feedItemStore.State()), feedId, items, clock, insertFaults)
    {
      // A failure while reading the feed's items is one more lookup fault.
      var lookup := feedStore.GetFeedByID(feedId, feedItemStore, lookupFault, None);
      if lookup.Err? {
        return Some(Lookup(lookup.error)), 0;
      }
      if lookup.value.None? {
        return Some(FeedNotFound), 0;
      }
      var feed := lookup.value.value;
      var parsedFeed := fetch(feed.link);
      if parsedFeed.Unavailable? {
        return Some(Download(parsedFeed.message)), 0;
      }
      newItemsCount := StoreEntries(feed.id, parsedFeed.items, clock, insertFaults);
      err := None;
    }
  }
}
