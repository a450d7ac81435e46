/** internal/api/feed_handler.go: what the five feed handlers answer.

    Each handler is a function from its abstract inputs to the response it
    writes and the store or fetcher call it makes, if any. The caller is
    the authenticated user's id (`None` when the request carries none); the
    `id` URL parameter is raw text; what the stores and the fetcher answer
    are function parameters. */
module FeedHandler {
  import opened Common
  import opened Text
  import opened Utils
  import opened FeedStore
  import opened Fetcher

  const StatusOK: int := 200
  const StatusCreated: int := 201
  const StatusBadRequest: int := 400
  const StatusUnauthorized: int := 401
  const StatusForbidden: int := 403
  const StatusNotFound: int := 404
  const StatusInternalServerError: int := 500

  /** A response body: a JSON envelope with one key, `http.Error`'s plain
      text, or nothing. */
  datatype Body =
    | ErrorJson(error: string)
    | FeedJson(feed: Feed)
    | MessageJson(message: string)
    | PlainText(text: string)
    | NoBody

  datatype Response = Response(status: int, body: Body)

  /** The one call a handler makes into a store or the fetcher. */
  datatype Call = CreateFeed(feed: Feed) | UpdateFeed(feed: Feed) | DeleteFeed(id: int) | FetchItems(id: int)

  datatype Reply = Reply(response: Response, call: Option<Call>)

  function Error(status: int, message: string): Response {
    Response(status, ErrorJson(message))
  }

  /** The body of a create request. */
  datatype CreateFeedInput = CreateFeedInput(title: string, description: string, link: string)

  /** `ValidateFeed`: a blank title is reported first, then a blank link;
      the description is never checked. */
  function ValidateFeed(input: CreateFeedInput): (err: Option<string>)
    ensures err == Some("title is required") <==> IsBlank(input.title)
    ensures err == Some("link is required") <==> !IsBlank(input.title) && IsBlank(input.link)
    ensures err == None <==> !IsBlank(input.title) && !IsBlank(input.link)
  {
    if TrimSpace(input.title) == "" then Some("title is required")
    else if TrimSpace(input.link) == "" then Some("link is required")
    else None
  }

  /** The body of an update request: each field may be absent. */
  datatype FeedPatch = FeedPatch(title: Option<string>, description: Option<string>, link: Option<string>)

  /** The update handler's merge: a field present in the request replaces the
      loaded one; an absent field keeps its value. */
  function Merge(feed: Feed, patch: FeedPatch): (r: Feed)
    ensures r.id == feed.id && r.userId == feed.userId && r.items == feed.items
    ensures patch.title.Some? ==> r.title == patch.title.value
    ensures patch.title.None? ==> r.title == feed.title
    ensures patch.description.Some? ==> r.description == patch.description.value
    ensures patch.description.None? ==> r.description == feed.description
    ensures patch.link.Some? ==> r.link == patch.link.value
    ensures patch.link.None? ==> r.link == feed.link
  {
    var feed := if patch.title.Some? then feed.(title := patch.title.value) else feed;
    var feed := if patch.description.Some? then feed.(description := patch.description.value) else feed;
    if patch.link.Some? then feed.(link := patch.link.value) else feed
  }

  /** Applying the same request twice is applying it once, and an empty
      request changes nothing. */
  lemma MergeIdempotent(feed: Feed, patch: FeedPatch)
    ensures Merge(Merge(feed, patch), patch) == Merge(feed, patch)
    ensures Merge(feed, FeedPatch(None, None, None)) == feed
  {
  }

  /** Where the shared checks of get, update, delete and fetch end. */
  datatype Access = Denied(response: Response) | Granted(feedId: int, feed: Feed)

  /** The checks in their fixed order: a caller, a valid id, a lookup that
      works, a feed that exists, a feed the caller owns. */
  function Authorize(user: Option<int>, idParam: string, lookup: int -> Result<Option<Feed>, DbError>): (a: Access)
    ensures a.Granted? <==>
      && user.Some? && ReadIDParam(idParam).Ok?
      && lookup(ReadIDParam(idParam).value).Ok? && lookup(ReadIDParam(idParam).value).value.Some?
      && lookup(ReadIDParam(idParam).value).value.value.userId == user.value
    ensures a.Granted? ==>
      && a.feedId == ReadIDParam(idParam).value
      && lookup(a.feedId) == Ok(Some(a.feed))
      && a.feed.userId == user.value
    ensures user.None? ==> a == Denied(Error(StatusUnauthorized, "unauthorized"))
    ensures user.Some? && ReadIDParam(idParam).Err? ==> a == Denied(Error(StatusBadRequest, "invalid feed id"))
    ensures user.Some? && ReadIDParam(idParam).Ok? && lookup(ReadIDParam(idParam).value).Err? ==>
      a == Denied(Error(StatusInternalServerError, "internal server error"))
    ensures user.Some? && ReadIDParam(idParam).Ok? && lookup(ReadIDParam(idParam).value) == Ok(None) ==>
      a == Denied(Error(StatusNotFound, "feed not found"))
    ensures a.Denied? && user.Some? && ReadIDParam(idParam).Ok? && lookup(ReadIDParam(idParam).value).Ok?
            && lookup(ReadIDParam(idParam).value).value.Some? ==>
      a == Denied(Error(StatusForbidden, "access denied"))
  {
    if user.None? then Denied(Error(StatusUnauthorized, "unauthorized"))
    else match ReadIDParam(idParam)
      case Err(_) => Denied(Error(StatusBadRequest, "invalid feed id"))
      case Ok(feedId) =>
        match lookup(feedId)
        case Err(_) => Denied(Error(StatusInternalServerError, "internal server error"))
        case Ok(None) => Denied(Error(StatusNotFound, "feed not found"))
        case Ok(Some(feed)) =>
          if feed.userId != user.value then Denied(Error(StatusForbidden, "access denied"))
          else Granted(feedId, feed)
  }

  /** `HandleGetFeedByID`: the feed, only to its owner. */
  function HandleGetFeedByID(user: Option<int>, idParam: string, lookup: int -> Result<Option<Feed>, DbError>): (r: Response)
    ensures r.status == StatusOK <==> Authorize(user, idParam, lookup).Granted?
    ensures Authorize(user, idParam, lookup).Denied? ==> r == Authorize(user, idParam, lookup).response
    ensures r.status == StatusOK ==> r.body == FeedJson(Authorize(user, idParam, lookup).feed)
    ensures r.status == StatusOK ==> r.body.feed.userId == user.value
  {
    match Authorize(user, idParam, lookup)
    case Denied(response) => response
    case Granted(_, feed) => Response(StatusOK, FeedJson(feed))
  }

  /** `HandleCreateFeed`: `body` is the decoded request, `None` when it is
      not valid JSON. The store is called only for a valid request, with a
      feed owned by the caller. */
  function HandleCreateFeed(user: Option<int>, body: Option<CreateFeedInput>, create: Feed -> Result<Feed, DbError>): (r: Reply)
    ensures r.call.Some? <==> user.Some? && body.Some? && ValidateFeed(body.value).None?
    ensures user.None? ==> r.response == Error(StatusUnauthorized, "unauthorized")
    ensures user.Some? && body.None? ==> r.response == Error(StatusBadRequest, "invalid request")
    ensures r.call.Some? ==>
      r.call == Some(CreateFeed(Feed(0, user.value, body.value.title, body.value.description, body.value.link, [])))
    ensures user.Some? && body.Some? && ValidateFeed(body.value).Some? ==>
      r.response == Error(StatusBadRequest, ValidateFeed(body.value).value)
    ensures r.call.Some? && create(r.call.value.feed).Err? ==>
      r.response == Error(StatusInternalServerError, "internal server error")
    ensures r.response.status == StatusCreated <==> r.call.Some? && create(r.call.value.feed).Ok?
    ensures r.response.status == StatusCreated ==> r.response.body == FeedJson(create(r.call.value.feed).value)
  {
    if user.None? then Reply(Error(StatusUnauthorized, "unauthorized"), None)
    else if body.None? then Reply(Error(StatusBadRequest, "invalid request"), None)
    else match ValidateFeed(body.value)
      case Some(message) => Reply(Error(StatusBadRequest, message), None)
      case None =>
        var feed := Feed(0, user.value, body.value.title, body.value.description, body.value.link, []);
        match create(feed)
        case Err(_) => Reply(Error(StatusInternalServerError, "internal server error"), Some(CreateFeed(feed)))
        case Ok(created) => Reply(Response(StatusCreated, FeedJson(created)), Some(CreateFeed(feed)))
  }

  /** `HandleUpdateFeedByID`: `patch` is the decoded request, `None` when it
      is not valid JSON. The owner's feed, merged with the request, is
      stored; any store failure, "no rows" included, answers 500. */
  function HandleUpdateFeedByID(
    user: Option<int>, idParam: string, lookup: int -> Result<Option<Feed>, DbError>,
    patch: Option<FeedPatch>, update: Feed -> Outcome<DbError>): (r: Reply)
    ensures r.call.Some? <==> Authorize(user, idParam, lookup).Granted? && patch.Some?
    ensures r.call.Some? ==> r.call == Some(UpdateFeed(Merge(Authorize(user, idParam, lookup).feed, patch.value)))
    ensures Authorize(user, idParam, lookup).Denied? ==> r.response == Authorize(user, idParam, lookup).response
    ensures Authorize(user, idParam, lookup).Granted? && patch.None? ==> r.response == Error(StatusBadRequest, "invalid request")
    ensures r.call.Some? && update(r.call.value.feed).Fail? ==> r.response == Error(StatusInternalServerError, "internal server error")
    ensures r.response.status == StatusOK <==> r.call.Some? && update(r.call.value.feed) == Pass
    ensures r.response.status == StatusOK ==> r.response.body == FeedJson(r.call.value.feed)
  {
    match Authorize(user, idParam, lookup)
    case Denied(response) => Reply(response, None)
    case Granted(_, feed) =>
      if patch.None? then Reply(Error(StatusBadRequest, "invalid request"), None)
      else
        var merged := Merge(feed, patch.value);
        match update(merged)
        case Fail(_) => Reply(Error(StatusInternalServerError, "internal server error"), Some(UpdateFeed(merged)))
        case Pass => Reply(Response(StatusOK, FeedJson(merged)), Some(UpdateFeed(merged)))
  }

  /** `HandleDeleteFeedByID`: "no rows" from the store answers 404 in plain
      text, any other failure 500, success 200 with no body. */
  function HandleDeleteFeedByID(
    user: Option<int>, idParam: string, lookup: int -> Result<Option<Feed>, DbError>,
    delete: int -> Outcome<DbError>): (r: Reply)
    ensures r.call.Some? <==> Authorize(user, idParam, lookup).Granted?
    ensures r.call.Some? ==> r.call == Some(DeleteFeed(Authorize(user, idParam, lookup).feedId))
    ensures r.call.None? ==> r.response == Authorize(user, idParam, lookup).response
    ensures r.call.Some? ==>
      r.response == match delete(r.call.value.id)
                    case Pass => Response(StatusOK, NoBody)
                    case Fail(NoRows) => Response(StatusNotFound, PlainText("feed not found\n"))
                    case Fail(_) => Error(StatusInternalServerError, "internal server error")
  {
    match Authorize(user, idParam, lookup)
    case Denied(response) => Reply(response, None)
    case Granted(feedId, _) =>
      var response :=
        match delete(feedId)
        case Fail(NoRows) => Response(StatusNotFound, PlainText("feed not found\n"))
        case Fail(_) => Error(StatusInternalServerError, "internal server error")
        case Pass => Response(StatusOK, NoBody);
      Reply(response, Some(DeleteFeed(feedId)))
  }

  /** `HandleFetchFeedItems`: `sync` is what `FetchFeedItems` reports for
      each id. Only a failed sync answers 500; a sync that skipped entries
      succeeded. */
  function HandleFetchFeedItems(
    user: Option<int>, idParam: string, lookup: int -> Result<Option<Feed>, DbError>,
    sync: int -> Option<SyncError>): (r: Reply)
    ensures r.call.Some? <==> Authorize(user, idParam, lookup).Granted?
    ensures r.call.Some? ==> r.call == Some(FetchItems(Authorize(user, idParam, lookup).feedId))
    ensures r.call.None? ==> r.response == Authorize(user, idParam, lookup).response
    ensures r.call.Some? && sync(r.call.value.id).Some? ==> r.response == Error(StatusInternalServerError, "failed to fetch feed items")
    ensures r.call.Some? && sync(r.call.value.id).None? ==> r.response == Response(StatusOK, MessageJson("feed items fetched successfully"))
  {
    match Authorize(user, idParam, lookup)
    case Denied(response) => Reply(response, None)
    case Granted(feedId, _) =>
      if sync(feedId).Some? then Reply(Error(StatusInternalServerError, "failed to fetch feed items"), Some(FetchItems(feedId)))
      else Reply(Response(StatusOK, MessageJson("feed items fetched successfully")), Some(FetchItems(feedId)))
  }

  /** No handler acts on a feed its caller does not own: whenever update,
      delete or fetch calls out, the feed the lookup found belongs to the
      caller, and the call names that feed's id. */
  lemma CallsOnlyForOwner(
    user: Option<int>, idParam: string, lookup: int -> Result<Option<Feed>, DbError>,
    patch: Option<FeedPatch>, update: Feed -> Outcome<DbError>,
    delete: int -> Outcome<DbError>, sync: int -> Option<SyncError>)
    ensures var calls := [
        HandleUpdateFeedByID(user, idParam, lookup, patch, update).call,
        HandleDeleteFeedByID(user, idParam, lookup, delete).call,
        HandleFetchFeedItems(user, idParam, lookup, sync).call];
      forall i :: 0 <= i < |calls| && calls[i].Some? ==>
        && user.Some? && ReadIDParam(idParam).Ok?
        && var id := ReadIDParam(idParam).value;
           lookup(id).Ok? && lookup(id).value.Some? && lookup(id).value.value.userId == user.value
  {
  }
}
