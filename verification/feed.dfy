/**
 The feed endpoint (`ListEvents`): a conditional read keyed on the feed
 version. The client's `If-None-Match` token is normalised and compared with
 the decimal rendering of the current version; a match answers 304 without
 touching the feed, anything else answers one page of events newest first
 together with the quoted version as the `ETag` header.
 */
module FeedHandler {
  import opened Base
  import opened Model
  import opened Text
  import Repository

  const DefaultPage: int := 1
  const DefaultSize: int := 10

  /** The query string as bound: `page`, `size`, `since`, `channel`. */
  datatype FeedQuery = FeedQuery(page: int, size: int, since: string, channel: string)

  /** One entry of the response. Timestamps stay abstract; their RFC 3339
      rendering is not modelled. */
  datatype FeedItem = FeedItem(
    id: Uuid,
    title: string,
    summary: string,
    status: string,
    scheduledAt: Option<nat>,
    createdAt: nat,
    tags: seq<string>)

  datatype FeedResponse = FeedResponse(page: int, size: int, total: int, events: seq<FeedItem>)

  /** What the handler answers: an error with its JSON message, a bodiless
      304, or a page with the `ETag` header. */
  datatype FeedReply =
    | FeedError(code: nat, error: string)
    | FeedNotModified
    | FeedOk(etag: string, body: FeedResponse)
  {
    function Status(): nat {
      match this
      case FeedError(code, _) => code
      case FeedNotModified => StatusNotModified
      case FeedOk(_, _) => StatusOK
    }
  }

  /** The client's token: surrounding `"` stripped, then surrounding white space. */
  function ClientToken(header: string): (t: string)
    ensures |t| <= |header|
    ensures |t| > 0 ==> !IsSpace(t[0]) && !IsSpace(t[|t| - 1])
  {
    TrimSpace(TrimQuotes(header))
  }

  /** The entity tag of a version: its decimal rendering (`strconv.Itoa`). */
  function ETag(version: int): string {
    Decimal(version)
  }

  /** The header value actually sent: the tag in double quotes. */
  function Quote(tag: string): (q: string)
    ensures |q| == |tag| + 2 && IsQuote(q[0]) && IsQuote(q[|q| - 1])
    ensures q[1..|q| - 1] == tag
  {
    "\"" + tag + "\""
  }

  /** `page <= 0` falls back to the first page. */
  function PageOrDefault(page: int): (p: int)
    ensures p >= 1
    ensures page >= 1 ==> p == page
    ensures page <= 0 ==> p == 1
  {
    if page <= 0 then DefaultPage else page
  }

  /** `size <= 0` falls back to ten items. */
  function SizeOrDefault(size: int): (n: int)
    ensures n >= 1
    ensures size >= 1 ==> n == size
    ensures size <= 0 ==> n == 10
  {
    if size <= 0 then DefaultSize else size
  }

  /** The `since` filter: absent when the parameter is empty or is not an RFC
      3339 timestamp (the parse error is dropped). */
  function SinceFilter(since: string, parsers: Parsers): (f: Option<nat>)
    ensures f.Some? <==> since != "" && parsers.time(since).Some?
    ensures f.Some? ==> f == parsers.time(since)
  {
    if since == "" then None else parsers.time(since)
  }

  /** The response entry for one event, carrying its tags in row order. */
  function ItemOf(s: State, e: Event): FeedItem {
    FeedItem(e.id, e.title, e.summary, e.status, e.scheduledAt, e.createdAt, TagsOf(s.tags, e.id))
  }

  function Items(s: State, events: seq<Event>): (items: seq<FeedItem>)
    ensures |items| == |events|
    ensures forall k | 0 <= k < |events| :: items[k] == ItemOf(s, events[k])
  {
    seq(|events|, k requires 0 <= k < |events| => ItemOf(s, events[k]))
  }

  /** `ListEvents`. `query` is `None` when the query string does not bind;
      `versionFault` and `feedFault` inject failures of the two reads. */
  function ListEvents(s: State, header: string, query: Option<FeedQuery>, parsers: Parsers,
                      versionFault: Fault, feedFault: Fault): (r: FeedReply)
    ensures r == FeedError(StatusInternalServerError, "cannot read feed version") <==>
              versionFault.Some? || s.version.None?
    ensures r.FeedNotModified? <==>
              versionFault.None? && s.version.Some? && ClientToken(header) == ETag(s.version.value)
    ensures r == FeedError(StatusBadRequest, "invalid query params") <==>
              && versionFault.None? && s.version.Some?
              && ClientToken(header) != ETag(s.version.value) && query.None?
    ensures r.FeedOk? <==>
              && versionFault.None? && s.version.Some?
              && ClientToken(header) != ETag(s.version.value) && query.Some? && feedFault.None?
    ensures r == FeedError(StatusInternalServerError, "cannot load events") <==>
              && versionFault.None? && s.version.Some?
              && ClientToken(header) != ETag(s.version.value) && query.Some? && feedFault.Some?
    ensures r.FeedOk? ==> r.etag == Quote(ETag(s.version.value))
  {
    var token := ClientToken(header);
    match Repository.GetFeedVersion(s, versionFault)
    case Err(_) => FeedError(StatusInternalServerError, "cannot read feed version")
    case Ok(version) =>
      var etag := ETag(version);
      if token != "" && token == etag then FeedNotModified
      else if query.None? then FeedError(StatusBadRequest, "invalid query params")
      else
        var page := PageOrDefault(query.value.page);
        var size := SizeOrDefault(query.value.size);
        var since := SinceFilter(query.value.since, parsers);
        match Repository.GetEventFeed(s, page, size, since, query.value.channel, feedFault)
        case Err(_) => FeedError(StatusInternalServerError, "cannot load events")
        case Ok(feed) => FeedOk(Quote(etag), FeedResponse(page, size, feed.total, Items(s, feed.events)))
  }

  // ---------------------------------------------------------------------------
  // Properties
  // ---------------------------------------------------------------------------

  /** Normalising the header the server sends gives back the tag: the two
      quotes are stripped and the digits carry no white space. */
  lemma ETagRoundTrip(version: int)
    ensures ClientToken(Quote(ETag(version))) == ETag(version)
  {
    var tag := ETag(version);
    assert IsDigit(tag[|tag| - 1]) && (tag[0] == '-' || IsDigit(tag[0]));
    NormaliseQuoted(tag);
  }

  /** A tag whose ends are neither quotes nor white space survives quoting
      followed by normalisation. */
  lemma NormaliseQuoted(tag: string)
    requires |tag| > 0
    requires !IsQuote(tag[0]) && !IsQuote(tag[|tag| - 1])
    requires !IsSpace(tag[0]) && !IsSpace(tag[|tag| - 1])
    ensures ClientToken(Quote(tag)) == tag
  {
    assert TrimQuotes(Quote(tag)) == tag by {
      Unquote(tag);
    }
    TrimUntouched(tag, IsSpace);
  }

  /** Trimming quotes off a quoted string removes exactly the added pair when
      the string itself neither starts nor ends with a quote. */
  lemma Unquote(tag: string)
    requires |tag| > 0 && !IsQuote(tag[0]) && !IsQuote(tag[|tag| - 1])
    ensures TrimQuotes(Quote(tag)) == tag
  {
    var q := Quote(tag);
    var left := tag + "\"";
    assert q[1..] == left;
    assert TrimLeft(left, IsQuote) == left;
    assert TrimLeft(q, IsQuote) == left;
    assert left[..|tag|] == tag;
    assert TrimRight(left, IsQuote) == tag;
  }

  /** A client that sends back the `ETag` it was given gets 304 as long as the
      version has not moved, whatever query it sends and whether or not the
      feed could be read. */
  lemma Revalidate(s: State, header: string, query: Option<FeedQuery>, parsers: Parsers, feedFault: Fault,
                   query': Option<FeedQuery>, feedFault': Fault)
    requires ListEvents(s, header, query, parsers, None, feedFault).FeedOk?
    ensures ListEvents(s, ListEvents(s, header, query, parsers, None, feedFault).etag,
                       query', parsers, None, feedFault') == FeedNotModified
  {
    ETagRoundTrip(s.version.value);
  }

  /** A version bump invalidates every tag handed out before it. */
  lemma BumpInvalidates(s: State, header: string, query: Option<FeedQuery>, parsers: Parsers, feedFault: Fault,
                        query': Option<FeedQuery>, feedFault': Fault)
    requires ListEvents(s, header, query, parsers, None, feedFault).FeedOk?
    ensures ListEvents(Repository.IncrementFeedVersion(s, None).state,
                       ListEvents(s, header, query, parsers, None, feedFault).etag,
                       query', parsers, None, feedFault') != FeedNotModified
  {
    var tag := ListEvents(s, header, query, parsers, None, feedFault).etag;
    ETagRoundTrip(s.version.value);
    StaleTag(s, tag, query', parsers, feedFault');
  }

  /** A token naming the current version no longer matches after a bump. */
  lemma StaleTag(s: State, tag: string, query: Option<FeedQuery>, parsers: Parsers, feedFault: Fault)
    requires s.version.Some? && ClientToken(tag) == ETag(s.version.value)
    ensures ListEvents(Repository.IncrementFeedVersion(s, None).state, tag, query, parsers, None, feedFault) != FeedNotModified
  {
    var s' := Repository.IncrementFeedVersion(s, None).state;
    assert s'.version == Some(s.version.value + 1);
    ETagsDiffer(s.version.value);
  }

  /** Consecutive versions have different tags. */
  lemma ETagsDiffer(version: int)
    ensures ETag(version) != ETag(version + 1)
  {
    DecimalRoundTrip(version);
    DecimalRoundTrip(version + 1);
  }

  /** The 304 answer is decided before the query is bound or the feed read:
      neither can change it. */
  lemma NotModifiedSkipsFeed(s: State, header: string, query: Option<FeedQuery>, parsers: Parsers,
                             feedFault: Fault, query': Option<FeedQuery>, parsers': Parsers, feedFault': Fault)
    requires ListEvents(s, header, query, parsers, None, feedFault) == FeedNotModified
    ensures ListEvents(s, header, query', parsers', None, feedFault') == FeedNotModified
  {
  }

  /** The page and size echoed in a response are the requested ones with
      non-positive values replaced by 1 and 10. */
  lemma PagingDefaults(s: State, header: string, q: FeedQuery, parsers: Parsers)
    requires ListEvents(s, header, Some(q), parsers, None, None).FeedOk?
    ensures var body := ListEvents(s, header, Some(q), parsers, None, None).body;
            && (q.page <= 0 ==> body.page == 1) && (q.page > 0 ==> body.page == q.page)
            && (q.size <= 0 ==> body.size == 10) && (q.size > 0 ==> body.size == q.size)
  {
  }

  /** A `since` that does not parse is treated exactly like no `since` at all. */
  lemma BadSinceIgnored(s: State, header: string, q: FeedQuery, parsers: Parsers, versionFault: Fault, feedFault: Fault)
    requires parsers.time(q.since).None?
    ensures ListEvents(s, header, Some(q), parsers, versionFault, feedFault)
         == ListEvents(s, header, Some(q.(since := "")), parsers, versionFault, feedFault)
  {
  }

  /** A page lists the matching events of the requested window: the total
      counts every event created after `since`, item `k` is the event at
      position `(page - 1) * size + k` of the newest-first order, and each item
      carries its event's tags in row order. */
  lemma PageContents(s: State, header: string, q: FeedQuery, parsers: Parsers)
    requires ListEvents(s, header, Some(q), parsers, None, None).FeedOk?
    ensures var body := ListEvents(s, header, Some(q), parsers, None, None).body;
            var ordered := Repository.NewestFirst(s.events, SinceFilter(q.since, parsers));
            var offset := (body.page - 1) * body.size;
            && body.total == |ordered|
            && |body.events| <= body.size
            && (forall k | 0 <= k < |body.events| ::
                  offset + k < |ordered| && body.events[k] == ItemOf(s, ordered[offset + k]))
            && (forall k | 0 <= k < |body.events| :: body.events[k].tags == TagsOf(s.tags, body.events[k].id))
  {
    var page, size := PageOrDefault(q.page), SizeOrDefault(q.size);
    var since := SinceFilter(q.since, parsers);
    var feed := Repository.GetEventFeed(s, page, size, since, q.channel, None).value;
    assert ListEvents(s, header, Some(q), parsers, None, None).body
        == FeedResponse(page, size, feed.total, Items(s, feed.events));
    PageItems(s, page, size, since, q.channel);
  }

  /** The items of one feed page are the events of the newest-first window,
      each with its own tags. */
  lemma PageItems(s: State, page: int, size: int, since: Option<nat>, channel: string)
    requires page >= 1 && size >= 1
    ensures var feed := Repository.GetEventFeed(s, page, size, since, channel, None).value;
            var items := Items(s, feed.events);
            var ordered := Repository.NewestFirst(s.events, since);
            && feed.total == |ordered|
            && |items| <= size
            && (forall k | 0 <= k < |items| ::
                  (page - 1) * size + k < |ordered| && items[k] == ItemOf(s, ordered[(page - 1) * size + k]))
            && (forall k | 0 <= k < |items| :: items[k].tags == TagsOf(s.tags, items[k].id))
  {
    var feed := Repository.GetEventFeed(s, page, size, since, channel, None).value;
    var ordered := Repository.NewestFirst(s.events, since);
    assert |ordered| == feed.total;
    forall k | 0 <= k < |feed.events|
      ensures Repository.Offset(page, size) + k < |ordered|
      ensures Items(s, feed.events)[k] == ItemOf(s, ordered[Repository.Offset(page, size) + k])
    {
    }
  }

  /** Without faults, a request whose token is stale gets a page; in a
      consistent database that page holds events created after `since` only,
      strictly newest first. */
  lemma PageNewestFirst(s: State, header: string, q: FeedQuery, parsers: Parsers)
    requires Valid(s)
    requires s.version.Some? && ClientToken(header) != ETag(s.version.value)
    ensures ListEvents(s, header, Some(q), parsers, None, None).FeedOk?
    ensures var items := ListEvents(s, header, Some(q), parsers, None, None).body.events;
            && (forall k | 0 <= k < |items| ::
                  exists e | e in s.events :: items[k] == ItemOf(s, e) && Repository.After(e, SinceFilter(q.since, parsers)))
            && (forall k, l | 0 <= k < l < |items| :: items[k].createdAt > items[l].createdAt)
  {
    var page, size := PageOrDefault(q.page), SizeOrDefault(q.size);
    var since := SinceFilter(q.since, parsers);
    Repository.FeedNewestFirst(s, page, size, since, q.channel);
    var events := Repository.GetEventFeed(s, page, size, since, q.channel, None).value.events;
    var items := ListEvents(s, header, Some(q), parsers, None, None).body.events;
    assert items == Items(s, events);
    forall k | 0 <= k < |items|
      ensures exists e | e in s.events :: items[k] == ItemOf(s, e) && Repository.After(e, since)
    {
      assert items[k] == ItemOf(s, events[k]);
    }
  }
}
