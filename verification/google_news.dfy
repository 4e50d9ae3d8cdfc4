/**
 `GoogleNewsAPI.FetchEverythingHacking`: runs the 'everything' fetch on a worker
 goroutine and waits, in a `select`, for whichever comes first: the 500 ms deadline
 (or the parent context's cancellation) or the worker's response.

 The concurrency is reduced to a decision over the first event observed. Event
 times are inputs, in milliseconds from the call. The result channel is
 unbuffered, so a worker that answers after the deadline blocks forever on its
 send; that leaked goroutine is outside this model.
 */
module GoogleNews {
  import opened Basics
  import opened Models
  import opened FetchEverything

  /** The deadline, in milliseconds. */
  const GoogleNewsTimeout: nat := 500

  /** What the worker sends over the channel, and what the method returns. */
  datatype NewsAPIResponse = NewsAPIResponse(articles: Option<seq<NewsArticle>>, err: Option<Error>)

  /** The API value: its key and its HTTP client. */
  datatype GoogleNewsAPI = GoogleNewsAPI(apiKey: string, httpClient: Client)

  /**
   When things happen, in milliseconds after the call: the worker's delivery (never,
   if `None`) and the parent context's cancellation (never, if `None`). When both
   `select` arms are ready at the same instant Go picks one at random;
   `tieGoesToDelivery` is that choice.
   */
  datatype Timing = Timing(deliveredAt: Option<nat>, parentCancelledAt: Option<nat>, tieGoesToDelivery: bool)

  /** The event the `select` observes first. */
  datatype FirstEvent = DeadlineOrParentCancelled | Delivered(response: NewsAPIResponse)

  /**
   `fmt.Errorf("FetchEverythingHacking timed out after %d milliseconds", googleNewsTimeout)`,
   with the constant 500 written out.
   */
  function TimeoutError(): Error
  {
    Error("FetchEverythingHacking timed out after 500 milliseconds")
  }

  /** When the child context's `Done` channel closes: at the deadline or the parent's cancellation. */
  function DoneAt(t: Timing): (at: nat)
    ensures at <= GoogleNewsTimeout
    ensures t.parentCancelledAt.Some? && t.parentCancelledAt.value < GoogleNewsTimeout ==> at == t.parentCancelledAt.value
    ensures t.parentCancelledAt.None? ==> at == GoogleNewsTimeout
    ensures t.parentCancelledAt.Some? && t.parentCancelledAt.value >= GoogleNewsTimeout ==> at == GoogleNewsTimeout
  {
    match t.parentCancelledAt
    case Some(c) => if c < GoogleNewsTimeout then c else GoogleNewsTimeout
    case None => GoogleNewsTimeout
  }

  /** True when the worker's response is the event the `select` takes. */
  predicate DeliveryWins(t: Timing)
  {
    t.deliveredAt.Some? &&
    (t.deliveredAt.value < DoneAt(t) || (t.deliveredAt.value == DoneAt(t) && t.tieGoesToDelivery))
  }

  /** The instant the `select` returns. */
  function ReturnsAt(t: Timing): (at: nat)
    ensures at <= GoogleNewsTimeout
    ensures DeliveryWins(t) ==> at == t.deliveredAt.value
    ensures !DeliveryWins(t) ==> at == DoneAt(t)
  {
    if DeliveryWins(t) then t.deliveredAt.value else DoneAt(t)
  }

  /** The worker's job: the hacking fetch with the API's own key and client. */
  function Worker(api: GoogleNewsAPI, env: Environment): (r: NewsAPIResponse)
    ensures r.articles.Some? <==> r.err.None?
  {
    var outcome := FetchEverythingNews("hacking", api.apiKey, api.httpClient, env);
    NewsAPIResponse(outcome.articles, outcome.err)
  }

  function Observe(t: Timing, response: NewsAPIResponse): (e: FirstEvent)
    ensures e.Delivered? <==> DeliveryWins(t)
    ensures e.Delivered? ==> e.response == response
  {
    if DeliveryWins(t) then Delivered(response) else DeadlineOrParentCancelled
  }

  /** One pass of the `for`/`select`: both arms return, so the loop never repeats. */
  function Select(e: FirstEvent): (r: NewsAPIResponse)
    ensures e.DeadlineOrParentCancelled? ==> r.articles.None? && r.err == Some(TimeoutError())
    ensures e.Delivered? ==> r == e.response
  {
    match e
    case DeadlineOrParentCancelled => NewsAPIResponse(None, Some(TimeoutError()))
    case Delivered(response) => response
  }

  function FetchEverythingHacking(api: GoogleNewsAPI, env: Environment, t: Timing): (r: NewsAPIResponse)
    ensures DeliveryWins(t) ==> r == Worker(api, env)
    ensures !DeliveryWins(t) ==> r == NewsAPIResponse(None, Some(TimeoutError()))
  {
    Select(Observe(t, Worker(api, env)))
  }

  /**
   Exactly one outcome: the timeout (nil articles, the 500 ms text) when the deadline or
   the parent's cancellation comes first, otherwise the worker's articles and error
   exactly as delivered, with the worker run as `FetchEverythingNews(ctx, "hacking",
   APIKey, HTTPClient)`; and the caller never waits beyond the deadline.
   */
  lemma ExactlyOneOutcome(api: GoogleNewsAPI, env: Environment, t: Timing)
    ensures var r := FetchEverythingHacking(api, env, t);
      (r == Worker(api, env) && DeliveryWins(t)) ||
      (r == NewsAPIResponse(None, Some(TimeoutError())) && !DeliveryWins(t))
    ensures ReturnsAt(t) <= 500
    ensures var w := FetchEverythingNews("hacking", api.apiKey, api.httpClient, env);
      DeliveryWins(t) ==> FetchEverythingHacking(api, env, t) == NewsAPIResponse(w.articles, w.err)
  {
  }

  /** A response strictly before the deadline and before any cancellation is always taken. */
  lemma EarlyDeliveryIsReturned(api: GoogleNewsAPI, env: Environment, t: Timing)
    requires t.deliveredAt.Some? && t.deliveredAt.value < GoogleNewsTimeout
    requires t.parentCancelledAt.None? || t.deliveredAt.value < t.parentCancelledAt.value
    ensures FetchEverythingHacking(api, env, t) == Worker(api, env)
  {
  }

  /** A worker that never answers yields the timeout after exactly 500 ms, if nothing cancels first. */
  lemma SilentWorkerTimesOut(api: GoogleNewsAPI, env: Environment, t: Timing)
    requires t.deliveredAt.None? && t.parentCancelledAt.None?
    ensures FetchEverythingHacking(api, env, t).err == Some(TimeoutError())
    ensures FetchEverythingHacking(api, env, t).articles.None?
    ensures ReturnsAt(t) == GoogleNewsTimeout
  {
  }

  /** Cancelling the parent first takes the same arm and reports the same timeout text. */
  lemma ParentCancellationReportsTimeout(api: GoogleNewsAPI, env: Environment, t: Timing)
    requires t.parentCancelledAt.Some? && t.parentCancelledAt.value < GoogleNewsTimeout
    requires t.deliveredAt.None? || t.parentCancelledAt.value < t.deliveredAt.value
    ensures FetchEverythingHacking(api, env, t) == NewsAPIResponse(None, Some(TimeoutError()))
    ensures ReturnsAt(t) == t.parentCancelledAt.value
  {
  }
}
