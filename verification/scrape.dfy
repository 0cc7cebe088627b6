/** The `scrape` handler: query defaults, capture, replay, extraction,
    processing, and the choice of HTTP outcome. The browser and the HTTPS
    client are parameters: `browse` maps the search page URL to the requests
    the page issued while loading (or a navigation failure), and `fetch` maps
    the replay URL to the parsed response body (or a failure). */
module Scrape {
  import opened Base
  import opened Json
  import Capture
  import SearchParams
  import Extract
  import Cards
  import Analysis
  import TopRated

  const DefaultLat := "28.65420"
  const DefaultLong := "77.23730"
  const DefaultItem := "Biryani"
  const SearchPage := "https://www.swiggy.com/search?query="
  /** The `description` an `APIError` is built with when none is given; the
      error handler passes the thrown error's own `description`, which a
      plain `Error` lacks. */
  const InternalServerError := "internal server error"
  const NotFoundMessage := "v3 API request not found"
  const NoCardsMessage := "No valid cards found to process"
  const SuccessMessage := "API response retrieved successfully"

  /** `req.query`; a parameter that is absent is `None`. */
  datatype Query = Query(lat: Option<string>, long: Option<string>, item: Option<string>)

  datatype Navigation = Loaded(requests: seq<Capture.Request>) | NavigationFailed(reason: string)

  /** The replayed request: a parsed body, or a transport or `JSON.parse` error. */
  datatype Fetch = Fetched(body: Json) | FetchFailed(reason: string)

  /** How far the pipeline got before `scrape` chooses a response. */
  datatype Outcome =
    | Thrown(reason: string)
    | NotCaptured
    | Processed(cards: seq<Cards.Card>)

  datatype Payload =
    | NoData
    | NoCards
    | Report(analytics: Analysis.Analytics, cards: seq<TopRated.TopCard>)
    | Failure(description: string)

  datatype Response = Response(status: int, message: string, payload: Payload)

  /** A destructuring default: it applies only when the value is absent, so
      an empty string is kept. */
  function OrDefault(v: Option<string>, d: string): (r: string)
    ensures v.Some? ==> r == v.value
    ensures v.None? ==> r == d
  {
    match v
    case None => d
    case Some(s) => s
  }

  /** The stages after the replay: extraction and processing, either of
      which may throw. */
  function Digest(reply: Fetch): Outcome {
    match reply
    case FetchFailed(e) => Thrown(e)
    case Fetched(body) =>
      match Extract.ExtractCards(body)
      case Err(e) => Thrown(e)
      case Ok(cardsArray) =>
        match Cards.ProcessCards(cardsArray)
        case Err(e) => Thrown(e)
        case Ok(cards) => Processed(cards)
  }

  /** The pipeline up to `processCards`. */
  function Run(q: Query, browse: string -> Navigation, fetch: string -> Fetch): Outcome {
    var lat := OrDefault(q.lat, DefaultLat);
    var long := OrDefault(q.long, DefaultLong);
    var item := OrDefault(q.item, DefaultItem);
    match browse(SearchPage + item)
    case NavigationFailed(e) => Thrown(e)
    case Loaded(events) =>
      match Capture.CaptureRequest(events)
      case None => NotCaptured
      case Some(request) => Digest(fetch(SearchParams.ReplayUrl(request.url, lat, long, item)))
  }

  /** The branching at the end of `scrape`; a thrown error reaches the error
      handler, which answers 500 with the default description and does not
      pass the error's message on. Analytics are taken from the cards in
      processing order, before the top-rated selection sorts them. */
  function Respond(o: Outcome): (r: Response)
    ensures r.status == 404 <==> o.NotCaptured?
    ensures r.status == 200 <==> o.Processed?
    ensures r.status == 500 <==> o.Thrown?
    ensures o.Thrown? ==> r.message == InternalServerError && r.payload == Failure(InternalServerError)
    ensures o.NotCaptured? ==> r.message == NotFoundMessage && r.payload == NoData
    ensures o.Processed? ==> r.message == (if |o.cards| == 0 then NoCardsMessage else SuccessMessage)
    ensures r.payload.NoCards? <==> o.Processed? && |o.cards| == 0
    ensures r.payload.Report? <==> o.Processed? && |o.cards| > 0
  {
    match o
    case Thrown(_) => Response(500, InternalServerError, Failure(InternalServerError))
    case NotCaptured => Response(404, NotFoundMessage, NoData)
    case Processed(cards) =>
      if |cards| == 0 then Response(200, NoCardsMessage, NoCards)
      else
        Response(200, SuccessMessage,
                 Report(Analysis.CalculateAnalytics(cards).value, TopRated.PrepareTopRated(cards)))
  }

  function Scrape(q: Query, browse: string -> Navigation, fetch: string -> Fetch): Response {
    Respond(Run(q, browse, fetch))
  }

  /** A full report carries the analytics of all processed cards, in their
      processing order, and the top-rated selection of those cards: at most
      five, best rated first, ties in processing order. Its cheapest and
      dearest prices bound every processed card's price. */
  lemma ReportContents(cards: seq<Cards.Card>)
    requires |cards| > 0
    ensures Respond(Processed(cards)).payload.Report?
    ensures var report := Respond(Processed(cards)).payload;
            && Analysis.CalculateAnalytics(cards) == Ok(report.analytics)
            && report.cards == TopRated.PrepareTopRated(cards)
            && |report.cards| == Min(TopRated.TopCount, |cards|)
            && forall i :: 0 <= i < |cards| ==>
                 report.analytics.min.price <= cards[i].price <= report.analytics.max.price
  {
    TopRated.TopRatedSelection(cards);
    forall i | 0 <= i < |cards|
      ensures Analysis.CalculateAnalytics(cards).value.min.price <= cards[i].price
              <= Analysis.CalculateAnalytics(cards).value.max.price
    {
      Analysis.AnalyticsExtremes(cards, i);
    }
  }

  /** A reply that exposes no dish cards at the fixed position and has no
      groups to scan (absent, falsy, or a string) ends in the 200 answer with
      no cards, not in an error. */
  lemma NoGroupsNoCards(body: Json)
    requires !Truthy(Extract.DishCards(At(Extract.CardGroups(body), 1)))
    requires !Truthy(Extract.CardGroups(body)) || Extract.CardGroups(body).value.JStr?
    ensures Respond(Digest(Fetched(body))) == Response(200, NoCardsMessage, NoCards)
  {
  }

  /** The handler answers 404 exactly when the page loaded and none of the
      requests it issued had the API marker in its URL. */
  lemma NotFoundIffNoApiRequest(q: Query, browse: string -> Navigation, fetch: string -> Fetch)
    ensures var nav := browse(SearchPage + OrDefault(q.item, DefaultItem));
            Scrape(q, browse, fetch).status == 404 <==>
              nav.Loaded? && forall j :: 0 <= j < |nav.requests| ==> !Capture.IsApiRequest(nav.requests[j])
  {
    var nav := browse(SearchPage + OrDefault(q.item, DefaultItem));
    if nav.Loaded? {
      Capture.CaptureIsLastMatch(nav.requests);
    }
  }

  /** When some request carried the marker, the replay goes to the last such
      request's URL with the query's coordinates and item set on it, and the
      outcome is whatever that reply digests to. */
  lemma ReplaysLastApiRequest(q: Query, browse: string -> Navigation, fetch: string -> Fetch, i: nat)
    requires var nav := browse(SearchPage + OrDefault(q.item, DefaultItem));
             && nav.Loaded? && i < |nav.requests| && Capture.IsApiRequest(nav.requests[i])
             && forall j :: i < j < |nav.requests| ==> !Capture.IsApiRequest(nav.requests[j])
    ensures var nav := browse(SearchPage + OrDefault(q.item, DefaultItem));
            Run(q, browse, fetch) == Digest(fetch(SearchParams.ReplayUrl(
              nav.requests[i].url, OrDefault(q.lat, DefaultLat), OrDefault(q.long, DefaultLong), OrDefault(q.item, DefaultItem))))
  {
    var events := browse(SearchPage + OrDefault(q.item, DefaultItem)).requests;
    Capture.CaptureFromIsLastMatch(None, events, Capture.IsApiRequest);
    assert Capture.IsLast(events, i, Capture.IsApiRequest);
  }

  /** Absent query parameters behave exactly as the documented defaults. */
  lemma AbsentParametersDefault(browse: string -> Navigation, fetch: string -> Fetch)
    ensures Scrape(Query(None, None, None), browse, fetch)
            == Scrape(Query(Some(DefaultLat), Some(DefaultLong), Some(DefaultItem)), browse, fetch)
  {
  }
}
