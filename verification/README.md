# A verified model of the rss feed reader's core

The system is a small self-hosted RSS reader written in Go and backed by
SQLite. Users log in, register feeds by URL and ask the server to fetch a
feed. The fetcher downloads and parses the feed document and stores each
entry as a feed item. An entry whose (feed, link) pair is already stored is
skipped. Every feed belongs to one user, and the HTTP handlers serve,
change, delete or fetch a feed only for its owner.

This project models, in Dafny, the parts that decide what is stored and what
is answered:

- `utils.dfy`: the feed date normaliser `ParseFeedDate` (an RFC 1123Z parse
  falling back to today's date) and `ReadIDParam` (`strconv.ParseInt`
  base 10, 64 bits).
- `feed_item_store.dfy`: the `feed_items` table as a class over its rows.
  It covers the insert with its (feed_id, link) uniqueness, the read by id,
  and the mark-as-read update.
- `feed_store.dfy`: the `feeds` table as a class. It covers create, read
  with items ordered by `published_at`, update and delete.
- `session_store.dfy`: login sessions keyed by a 64-character hexadecimal
  token, with create, look-up, delete and delete-all-of-a-user.
- `fetcher.dfy`: one synchronisation of a feed. This is the loop over the
  parsed entries: publication-date priority, insert, skip duplicates and
  other failures, count the new items.
- `feed_handler.dfy` and `user_handler.dfy`: what the feed handlers and the
  login and logout handlers answer, and which store call each one makes.
- `common.dfy`, `text.dfy` and `digits.dfy` hold shared pieces:
  - `Option`, `Result` and the database error kinds;
  - `strings.TrimSpace`;
  - byte-wise string order;
  - decimal digits.

The model makes these abstractions:

- Database failures that are not about the data become a `fault` parameter.
  This covers driver errors, a failed `Begin` and a failed `Commit`. The
  sync's inserts take a set of faulting entry indices. A failed statement
  rolls back, so the table is unchanged.
- Downloading and parsing a feed is a function parameter `fetch`.
- The wall clock is a `Clock` value. The random source is an `Entropy`
  parameter.
- Handlers take the stores' answers as function parameters. They return the
  response together with the store call they make.

## Model

| member | source | states |
|---|---|---|
| Text.TrimSpace | internal/api/feed_handler.go:40-44 | trimming yields the empty string exactly when the input is all white space; otherwise the result is the input minus its leading and trailing white space |
| Utils.ParseRFC1123Z | internal/utils/utils.go:53-57 | a successful parse of the `Mon, 02 Jan 2006 15:04:05 -0700` layout yields a valid date (day within its month, leap years included), a valid clock time and a valid zone offset |
| Utils.ParseRender | internal/utils/utils.go:52-53 | every well-formed RFC 1123Z timestamp parses back to exactly its fields (parser inverts the renderer) |
| Utils.ParseFeedDate | internal/utils/utils.go:47-60 | an empty or unparseable date yields today's date formatted as `YYYY-MM-DD 00:00:00`; a parseable one yields its own calendar date in that format |
| Utils.ParseFeedDateShape | internal/utils/utils.go:47-60 | whichever branch runs, the output has the fixed shape `DDDD-DD-DD 00:00:00` |
| Utils.ParseFeedDateAsWritten | internal/utils/utils.go:53-59 | a well-formed timestamp is stored under its own written date, whatever its time of day and zone offset; the time is always `00:00:00` |
| Utils.FormatValidDate | internal/utils/utils.go:59 | `FormatDate` of a real date is the four-digit year, two-digit month and two-digit day, zero-padded and joined by dashes, then the literal ` 00:00:00` |
| Utils.FormatDateShape | internal/utils/utils.go:59 | `FormatDate` of a real date has the shape `DDDD-DD-DD 00:00:00` |
| Utils.FormatDateOrder | internal/utils/utils.go:59 | formatted dates compare as strings exactly as the calendar dates compare (both directions) |
| Utils.ParseFeedDateOrder | internal/utils/utils.go:53-59 | for two parseable dates, the stored strings are ordered as their written calendar dates are (both directions); the offset plays no part |
| Utils.ParseInt64 | internal/utils/utils.go:39-42 | text is accepted iff it is an optional sign followed by at least one decimal digit (leading zeros allowed) whose signed value lies within int64; the value is that signed value |
| Utils.ParseInt64Lenient | internal/utils/utils.go:39-42 | `007`, `+5` and `-0` are accepted with their values (so `007` is a valid id); a bare sign and a trailing letter are refused |
| Utils.ReadIDParam | internal/utils/utils.go:33-45 | an empty parameter gives "invalid id" (and only it does); text that does not parse gives "invalid id type"; text that `ParseInt64` accepts gives `Ok` with its value |
| Utils.ParseFormatInt | internal/utils/utils.go:39-44 | every int64's decimal rendering is read back by `ReadIDParam` as itself |
| FeedItemStore.Insert | internal/store/feed_item_store.go:38-58 | the INSERT succeeds iff there is no fault and the (feed_id, link) pair is new. Success appends one row with the next id and NULL `read_at`; a taken pair fails with a unique violation; any failure leaves the table unchanged; uniqueness and id freshness are preserved |
| FeedItemStore.FindRow | internal/store/feed_item_store.go:80-85 | finds a row with the id exactly when one exists |
| FeedItemStore.MarkRead | internal/store/feed_item_store.go:101-107 | the row with the id gets the new `read_at`; every other row and every other column is unchanged |
| FeedItemStore.MarkReadWf | internal/store/feed_item_store.go:101-107 | marking a row read keeps the table's uniqueness and id invariants |
| FeedItemStore.Bind | internal/store/feed_item_store.go:108 | a statement runs only when the number of bound arguments equals its number of placeholders |
| FeedItemStore.ExecMarkRead | internal/store/feed_item_store.go:101-121 | the update passes iff there is no fault, both arguments are bound and the row exists; a missing row gives `NoRows`; a failure leaves the table unchanged |
| FeedItemStore.UpdateFeedItemAsWritten | internal/store/feed_item_store.go:108-111 | with one argument for two placeholders the update always fails (an argument-count error when nothing else does) and changes nothing |
| FeedItemStore.UpdateFeedItemAsWrittenNeverMarksRead | internal/store/feed_item_store.go:101-121 | for an existing row, the update as written fails while the corrected one succeeds and sets that row's `read_at` |
| FeedItemStore.FeedItemTable.constructor | internal/store/feed_item_store.go:21-23 | a new store is an empty, well-formed table |
| FeedItemStore.FeedItemTable.CreateFeedItem | internal/store/feed_item_store.go:31-66 | the new table and the result are those of `Insert`: the item comes back with its new id; on failure nothing changes |
| FeedItemStore.FeedItemTable.GetFeedItemByID | internal/store/feed_item_store.go:68-92 | a missing id gives `Ok(None)`, distinct from an error; a found item carries the row's id, title, description, link and published_at, with FeedID and ReadAt left at their zero values |
| FeedItemStore.FeedItemTable.UpdateFeedItem | internal/store/feed_item_store.go:94-122 | the corrected update: the new table and outcome are those of `ExecMarkRead` with both arguments bound |
| FeedStore.FindFeed | internal/store/feed_store.go:76-90 | finds a row with the id exactly when one exists |
| FeedStore.FindFeedAt | internal/store/feed_store.go:76-90 | with distinct ids, looking up a row's id finds that row |
| FeedStore.Without | internal/store/feed_store.go:172-178 | the rows left by the DELETE are exactly the old rows with a different id |
| FeedStore.WithoutFresh | internal/store/feed_store.go:172-178 | deleting keeps ids distinct and below the next id |
| FeedStore.WithoutFind | internal/store/feed_store.go:172-178 | deleting one id leaves what every other id finds unchanged |
| FeedStore.Retitle | internal/store/feed_store.go:139-148 | the row with the feed's id takes its title, description and link and keeps id and owner; every other row is unchanged |
| FeedStore.RetitleFresh | internal/store/feed_store.go:139-148 | the update keeps ids distinct and below the next id |
| FeedStore.RetitleFind | internal/store/feed_store.go:139-148 | after the update, the feed's id finds the new fields with the old owner, and every other id finds what it found before |
| FeedStore.ItemsOf | internal/store/feed_store.go:95-105 | the items selected are the item rows of that feed and nothing else, one item per matching row |
| FeedStore.AsItem | internal/store/feed_store.go:114-126 | an item read from the result set carries its row's id, title, description, link and `published_at` |
| FeedStore.OrderedSorted | internal/store/feed_store.go:106 | adjacent order implies order between every pair |
| FeedStore.InsertByDate | internal/store/feed_store.go:106 | inserting into an ordered list keeps it ordered and adds exactly one item |
| FeedStore.SortByPublished | internal/store/feed_store.go:106 | `ORDER BY published_at`: the result is ordered by `published_at` and is a permutation of the input |
| FeedStore.ScanItems | internal/store/feed_store.go:114-127 | the row loop reads the result set up to the driver failure, if any, and reports that failure iff it happens before the last row; without one it returns every row in order; its items are those of the as-written read |
| FeedStore.ReadItemsAsWritten | internal/store/feed_store.go:114-129 | the item loop as written always succeeds: with no driver failure it returns every row, with a failure at row k only the first k, and never an error |
| FeedStore.ScanFailureLooksComplete | internal/store/feed_store.go:114-129 | a feed whose item read fails before its last item is answered successfully with items missing |
| FeedStore.FeedTable.constructor | internal/store/feed_store.go:28-30 | a new store is an empty table whose first id is 1 |
| FeedStore.FeedTable.CreateFeed | internal/store/feed_store.go:39-72 | success appends one row with a fresh id and returns the feed with that id; reading the id back finds what was stored; a failure changes nothing |
| FeedStore.FeedTable.GetFeedByID | internal/store/feed_store.go:74-130 | the corrected read: a query fault, or a driver failure while reading the items of an existing feed, gives an error; a missing id `Ok(None)`. A found feed carries the row's fields and exactly that feed's items, sorted by `published_at` |
| FeedStore.FeedTable.UpdateFeed | internal/store/feed_store.go:132-163 | without a fault, the update succeeds iff the id exists and `NoRows` otherwise; any failure changes nothing; success rewrites title, description and link of that row only |
| FeedStore.FeedTable.DeleteFeedByID | internal/store/feed_store.go:165-193 | a missing id gives `NoRows`. Otherwise the row is removed and every other id finds what it did before. A failure at commit is reported although the row is gone |
| SessionStore.HexEncode | internal/store/session_store.go:36 | two lowercase hexadecimal digits per byte |
| SessionStore.HexValue | internal/store/session_store.go:36 | a hexadecimal digit of either case has a value below 16 |
| SessionStore.HexDecode | internal/store/session_store.go:36 | a successful decode has half as many bytes as characters |
| SessionStore.HexRoundTrip | internal/store/session_store.go:31-37 | decoding an encoded token gives back its bytes |
| SessionStore.GenerateToken | internal/store/session_store.go:31-37 | fails exactly when the random source fails; otherwise 64 lowercase hexadecimal characters that decode to the 32 random bytes |
| SessionStore.SessionTable.constructor | internal/store/session_store.go:27-29 | a new store holds no session |
| SessionStore.SessionTable.GetSession | internal/store/session_store.go:62-93 | the corrected look-up: a session is returned iff its token is stored and its expiry lies strictly after now; a missing or expired session is `Ok(None)`, not an error |
| SessionStore.SessionTable.CreateSession | internal/store/session_store.go:39-60 | a failed random source or database changes nothing; otherwise a session for the user expiring `expiresIn` after now is stored; it is found at every instant before expiry and not at expiry |
| SessionStore.SessionTable.DeleteSession | internal/store/session_store.go:95-104 | the token no longer finds a session; every other token finds what it found before; a failure changes nothing |
| SessionStore.SessionTable.DeleteUserSessions | internal/store/session_store.go:106-115 | no token finds a session of that user any more; every other user's sessions stay |
| SessionStore.Rfc3339Utc | internal/store/session_store.go:50 | the stored expiry text is the date, then `T`, then the time, ending in `Z` |
| SessionStore.SqliteDateTime | internal/store/session_store.go:76 | SQLite's current time text is the same date text followed by a space |
| SessionStore.LiveAsWritten | internal/store/session_store.go:76 | comparing the stored RFC 3339 text with SQLite's `datetime('now')` text: two texts with the same date, `T` against a space, always count as live |
| SessionStore.ExpiredSameDayStillLive | internal/store/session_store.go:76 | a session that expired earlier on the same UTC day is found by the text comparison while by instants it has expired |
| Fetcher.PublishedAtPriority | internal/fetcher/fetcher.go:55-61 | `PublishedAt`'s priority: the parser's own time, in RFC 3339, wins whenever present, whatever the raw date says; the raw date through `ParseFeedDate` is used only without it; the current instant only when both are missing |
| Fetcher.CandidateFields | internal/fetcher/fetcher.go:48-61 | `Candidate`: the item offered for an entry belongs to the synced feed, carries the entry's title, description and link and the `PublishedAt` date, and is unread with no id yet |
| Fetcher.PublishedAtFallback | internal/fetcher/fetcher.go:55-61 | an entry the parser could not date but whose raw date is present is stored under a `YYYY-MM-DD 00:00:00` date: its own when it parses as RFC 1123Z, today's otherwise |
| Fetcher.Ingest | internal/fetcher/fetcher.go:46-76 | the sync's inserts keep the table well formed and only append rows, all of them for this feed, one per counted success, never more than the entries |
| Fetcher.IngestCovers | internal/fetcher/fetcher.go:63-73 | after a sync every entry whose insert did not fault is stored, newly or because it already was |
| Fetcher.IngestStored | internal/fetcher/fetcher.go:63-69 | a sync whose entries are all stored changes nothing and counts nothing |
| Fetcher.ResyncAddsNothing | internal/fetcher/fetcher.go:46-76 | syncing the same document again adds no row and counts zero, whatever fails the second time |
| Fetcher.IngestAddsOnlyNew | internal/fetcher/fetcher.go:63-75 | every row a sync adds is for a (feed, link) pair that was not stored before |
| Fetcher.Fetcher.constructor | internal/fetcher/fetcher.go:21-27 | the fetcher holds the two stores it is given |
| Fetcher.Fetcher.StoreEntries | internal/fetcher/fetcher.go:46-76 | the loop over the entries leaves the item table and the count as `Ingest` describes |
| Fetcher.Fetcher.FetchFeedItems | internal/fetcher/fetcher.go:29-80 | a lookup failure, a missing feed and a failed download each end the sync with its error and nothing stored; otherwise it succeeds whatever the inserts did, with table and count as `Ingest` describes |
| FeedHandler.ValidateFeed | internal/api/feed_handler.go:39-47 | "title is required" iff the title is blank; "link is required" iff the title is not blank and the link is; valid iff neither is blank |
| FeedHandler.Merge | internal/api/feed_handler.go:164-172 | a field present in the request replaces the stored one and an absent field keeps it; id, owner and items never change |
| FeedHandler.MergeIdempotent | internal/api/feed_handler.go:164-172 | applying a request twice is applying it once; an empty request changes nothing |
| FeedHandler.Authorize | internal/api/feed_handler.go:49-78 | access is granted iff the caller is known, the id parses, the lookup works, the feed exists and the caller owns it; each failed check, in that order, gives its own status (401, 400, 500, 404, 403) |
| FeedHandler.HandleGetFeedByID | internal/api/feed_handler.go:49-81 | 200 with the feed iff access is granted, and then the feed belongs to the caller; a refusal is exactly `Authorize`'s response (401, 400, 500, 404 or 403) |
| FeedHandler.HandleCreateFeed | internal/api/feed_handler.go:83-119 | no caller answers 401 and an undecodable body 400 "invalid request"; the store is called iff the caller is known and the body decodes and validates, with a feed owned by the caller; a validation failure answers 400 with its message; a failed store call 500; 201 with the created feed iff that call succeeds |
| FeedHandler.HandleUpdateFeedByID | internal/api/feed_handler.go:121-182 | a refusal is exactly `Authorize`'s response and an undecodable body 400 "invalid request"; the store is called iff access is granted and the body decodes, with the merged feed; any store failure is 500; 200 with the merged feed iff the update passes |
| FeedHandler.HandleDeleteFeedByID | internal/api/feed_handler.go:184-228 | the store is called iff access is granted; `NoRows` answers 404 in plain text, any other failure 500, success 200 without body |
| FeedHandler.HandleFetchFeedItems | internal/api/feed_handler.go:230-269 | the fetcher is called iff access is granted; a failed sync answers 500, any other 200 with a success message |
| FeedHandler.CallsOnlyForOwner | internal/api/feed_handler.go:121-269 | whenever update, delete or fetch calls out, the feed the lookup found belongs to the caller |
| UserHandler.ValidateLoginRequest | internal/api/user_handler.go:25-33 | "username is required" iff the username is blank; "password is required" iff only the password is blank; valid iff neither is |
| UserHandler.ValidateCreateRequest | internal/api/user_handler.go:49-58 | the same rules for a registration request |
| UserHandler.DecodeLogin | internal/api/user_handler.go:101-119 | the body is read as JSON exactly when the content type is `application/json`, as form fields otherwise |
| UserHandler.Verify | internal/api/user_handler.go:121-168 | a login is accepted iff it validates, the user exists and the password matches; validation failures are 400; an unknown user and a wrong password are the same 401; store and hashing failures are 500 |
| UserHandler.SessionReply | internal/api/user_handler.go:170-211 | the cookie is set iff the session was created, with a 24-hour MaxAge and HttpOnly; then htmx gets `HX-Redirect: /dashboard`, a form a 303 to `/dashboard`, JSON a 200; a failed session is 500 |
| UserHandler.HandleLogin | internal/api/user_handler.go:97-212 | a session is requested iff the request decodes and is accepted, for that user and 24 hours; a cookie is set only when that session exists; refusals answer a JSON status or a redirect carrying the message |
| UserHandler.UnknownUserLikeWrongPassword | internal/api/user_handler.go:142-168 | an unknown username and a wrong password for a known one get identical answers and start no session |
| UserHandler.HandleLogout | internal/api/user_handler.go:214-248 | the session is deleted iff the request carries a non-empty session cookie; the cookie is always cleared; htmx gets `HX-Redirect: /`, others a 303 to `/` |
| UserHandler.LogoutIgnoresDeleteFailure | internal/api/user_handler.go:219-223 | a failed session delete changes nothing the client sees |

## Left out

- Feed owner: `store.Feed` (internal/store/feed_store.go:8-14) has no `UserID` field, and `CreateFeed` does not insert `user_id`. The handlers still compare `feed.UserID` with the caller. The model stores the owner on create and returns it on read, as the handlers require.
- HTTP plumbing, JSON encoding and cookie attributes other than name, value, path, MaxAge, HttpOnly and SameSite are not modelled. A JSON or form body that fails to decode is an absent (`None`) input.
- The successful JSON login body carries the user's id rather than the whole user record.
- `HandleCreateUser`, the user store, password hashing, the authentication middleware, the page handlers, routing and migrations are not part of this model. The user look-up and password check are parameters of `HandleLogin`.
- Logging is not modelled. The count of new items, which the source only logs, is returned by `FetchFeedItems`.
- The network and the gofeed parser are the `fetch` parameter. The parser's own date reading is the entry's `publishedParsed` field.
- The wall clock is the `Clock` parameter. RFC 3339 rendering of instants is an uninterpreted function in it.
- Fetcher.PublishedAt: one `Clock` serves a whole sync, and its `today` is not tied to its `now`. The source reads `time.Now()` afresh for each undated entry and in each `ParseFeedDate` fallback, so entries of one sync may get different current times; the model gives them all the same one.
- The random source is the `Entropy` parameter.
- SQL transactions, concurrency and driver errors are not modelled. Each failure not caused by the data is a fault flag whose effect is a rollback, except `DeleteFeedByID`'s commit failure, which comes after the row is already deleted (see its row).
- A unique-constraint violation is a distinct error kind. The source recognises it by its message text, and the sync skips it just like any other failed insert, so the outcome is the same.
- Ids are handed out in increasing order. Rowid reuse after a delete is not modelled.
- Deleting a feed does not cascade to its items. No foreign key is declared in the code shown.
- The session token is treated as the table's key.
- SessionStore.SessionTable.GetSession: the `time.Parse` of the stored expiry is not modelled; expiries are instants in seconds.
- FeedStore.SortByPublished: states order and permutation only, not how SQLite orders rows with equal `published_at`.
- Utils.ParseRFC1123Z: its contract states validity of the result, not every rejection of `time.Parse`. A fraction of a second after the seconds is accepted but not kept, because the stored text never uses it. Strings are sequences of characters, not UTF-8 bytes.
- `ParseFeedDate` reads the local calendar date from the clock (`today`). The source converts no time zone either: a parsed timestamp keeps its written date and its offset is dropped.
- Ordering `published_at` as text is not ordering by instant, and the model does not claim it is. Two dates with different offsets can sort against their instants: `Thu, 02 May 2024 01:00:00 +0900` is stored as `2024-05-02 00:00:00` although it is earlier than `Wed, 01 May 2024 20:00:00 +0000`, stored as `2024-05-01 00:00:00`. The RFC 3339 texts stored from the parser's own time or the current instant (internal/fetcher/fetcher.go:56,60) mix a second format into the same column, and no order between the two formats is stated.

## Findings

| source | as written | input that shows it | evidently intended | confidence | as-written member | corrected member |
|---|---|---|---|---|---|---|
| internal/store/feed_item_store.go:108 | `UPDATE feed_items SET read_at = ? WHERE id = ?` is executed with only `feedItem.ReadAt` bound, so database/sql refuses it for an argument-count mismatch | any call of `UpdateFeedItem` on an item whose row exists | bind both `ReadAt` and `ID`, setting `read_at` of that row | high, not executed | FeedItemStore.UpdateFeedItemAsWritten, FeedItemStore.UpdateFeedItemAsWrittenNeverMarksRead | FeedItemStore.FeedItemTable.UpdateFeedItem |
| internal/store/session_store.go:76 | `expires_at > datetime('now')` compares texts: the stored RFC 3339 form has `T` at index 10 where SQLite's has a space | a session stored with expiry `2024-05-01T10:00:00Z`, looked up at `2024-05-01 12:00:00` UTC, is still returned | compare instants: a session is live only before its expiry | medium (UTC server time assumed), not executed | SessionStore.LiveAsWritten, SessionStore.ExpiredSameDayStillLive | SessionStore.SessionTable.GetSession |
| internal/store/feed_store.go:114-129 | the `rows.Next()` loop ends silently when the driver fails mid-read and `rows.Err()` is never checked, so the feed is returned with a nil error | a feed with two items whose read fails after the first row is returned with one item and no error | report the iteration error, as `rows.Err()` would give it | medium, not executed | FeedStore.ReadItemsAsWritten, FeedStore.ScanFailureLooksComplete | FeedStore.FeedTable.GetFeedByID |
