/**
 `GetEveryHackingNews`: fetch the title-keyed article map, write each entry through
 to the cache with a 24-hour expiry, and answer with the whole map as JSON.

 The cache is a map from key to (value, expiry). JSON marshalling, the cache's
 `Set` and the response encoder are inputs that may fail; Go's map iteration
 order is an input too, any order that visits every key once.
 */
module NewsHandler {
  import opened Basics
  import opened Utf8
  import opened Models
  import opened GoogleNewsLegacy

  /** Nanoseconds in an hour, as `time.Hour` counts. */
  const Hour: int := 3_600_000_000_000
  /** The expiry `RedisCache.Set` gives every entry. */
  const ExpirationTTL: int := 24 * Hour

  const StatusOK: int := 200
  const StatusInternalServerError: int := 500

  datatype Entry = Entry(value: seq<byte>, ttl: int)
  type Cache = map<string, Entry>

  /** What happened to one key of the loop. */
  datatype WriteOutcome = Stored | MarshalFailed(error: Error) | StoreFailed(error: Error)
  datatype Attempt = Attempt(key: string, outcome: WriteOutcome)

  datatype HttpResponse = HttpResponse(status: int, contentType: string, body: string)

  /** The fallible collaborators: `json.Marshal`, the cache's `Set`, and the response encoder. */
  datatype Collaborators = Collaborators(
    marshal: NewsArticle -> Result<seq<byte>>,
    store: (string, seq<byte>) -> Option<Error>,
    encode: Option<map<string, NewsArticle>> -> Result<string>)

  datatype HandlerResult = HandlerResult(response: HttpResponse, cache: Cache, attempts: seq<Attempt>)

  /** `order` visits every key of `news` exactly once, as a `range` over a Go map does. */
  predicate IsIterationOrder(order: seq<string>, news: map<string, NewsArticle>)
  {
    && (forall i :: 0 <= i < |order| ==> order[i] in news)
    && (forall i, j :: 0 <= i < j < |order| ==> order[i] != order[j])
    && (forall k :: k in news ==> k in order)
  }

  /** The key's value reaches the cache: it marshals and the store accepts it. */
  predicate Writes(news: map<string, NewsArticle>, k: string, c: Collaborators)
    requires k in news
  {
    c.marshal(news[k]).Ok? && c.store(k, c.marshal(news[k]).value).None?
  }

  /** One iteration of the loop: marshal, then store; a failure is logged and the loop moves on. */
  function WriteOne(cache: Cache, news: map<string, NewsArticle>, k: string, c: Collaborators)
    : (r: (Cache, Attempt))
    requires k in news
    ensures r.1.key == k
    ensures r.1.outcome.Stored? <==> Writes(news, k, c)
    ensures Writes(news, k, c) ==> r.0 == cache[k := Entry(c.marshal(news[k]).value, ExpirationTTL)]
    ensures !Writes(news, k, c) ==> r.0 == cache
  {
    match c.marshal(news[k])
    case Failed(e) => (cache, Attempt(k, MarshalFailed(e)))
    case Ok(json) =>
      match c.store(k, json)
      case Some(e) => (cache, Attempt(k, StoreFailed(e)))
      case None => (cache[k := Entry(json, ExpirationTTL)], Attempt(k, Stored))
  }

  /** The write-through loop over the keys in iteration order. */
  function WriteThrough(cache: Cache, news: map<string, NewsArticle>, order: seq<string>, c: Collaborators)
    : (Cache, seq<Attempt>)
    requires forall i :: 0 <= i < |order| ==> order[i] in news
    decreases |order|
  {
    if |order| == 0 then (cache, [])
    else
      var (cache', attempt) := WriteOne(cache, news, order[0], c);
      var (final, rest) := WriteThrough(cache', news, order[1..], c);
      (final, [attempt] + rest)
  }

  /** Every key is attempted once, in iteration order, and a failure does not stop the loop. */
  lemma {:induction false} WriteThroughAttempts(cache: Cache, news: map<string, NewsArticle>,
                                               order: seq<string>, c: Collaborators)
    requires forall i :: 0 <= i < |order| ==> order[i] in news
    ensures var attempts := WriteThrough(cache, news, order, c).1;
      && |attempts| == |order|
      && (forall i :: 0 <= i < |order| ==> attempts[i].key == order[i])
      && (forall i :: 0 <= i < |order| ==> (attempts[i].outcome.Stored? <==> Writes(news, order[i], c)))
    decreases |order|
  {
    if |order| > 0 {
      WriteThroughAttempts(WriteOne(cache, news, order[0], c).0, news, order[1..], c);
    }
  }

  /** The keys an iteration order visits. */
  function Visited(order: seq<string>): set<string>
  {
    set i | 0 <= i < |order| :: order[i]
  }

  /**
   The cache after writing the keys in `keys`, independently of order: a key that
   writes holds its marshalled value with the 24-hour expiry, every other key keeps
   what it had.
   */
  function Expected(cache: Cache, news: map<string, NewsArticle>, keys: set<string>, c: Collaborators): Cache
    requires keys <= news.Keys
  {
    map k | k in cache.Keys + (set k | k in keys && Writes(news, k, c)) ::
      if k in keys && Writes(news, k, c) then Entry(c.marshal(news[k]).value, ExpirationTTL) else cache[k]
  }

  lemma ExpectedStep(cache: Cache, news: map<string, NewsArticle>, k: string, keys: set<string>, c: Collaborators)
    requires k in news && keys <= news.Keys && k !in keys
    ensures Expected(WriteOne(cache, news, k, c).0, news, keys, c) == Expected(cache, news, keys + {k}, c)
  {
    var lhs := Expected(WriteOne(cache, news, k, c).0, news, keys, c);
    var rhs := Expected(cache, news, keys + {k}, c);
    assert lhs.Keys == rhs.Keys;
    forall x | x in lhs.Keys ensures lhs[x] == rhs[x] { }
  }

  /** The loop's final cache is the order-free `Expected` over the keys it visited. */
  lemma {:induction false} WriteThroughIsExpected(cache: Cache, news: map<string, NewsArticle>,
                                                  order: seq<string>, c: Collaborators)
    requires forall i :: 0 <= i < |order| ==> order[i] in news
    requires forall i, j :: 0 <= i < j < |order| ==> order[i] != order[j]
    ensures WriteThrough(cache, news, order, c).0 == Expected(cache, news, Visited(order), c)
    decreases |order|
  {
    var keys := Visited(order);
    if |order| == 0 {
      assert keys == {};
      assert Expected(cache, news, keys, c) == cache;
    } else {
      var rest := Visited(order[1..]);
      assert keys == rest + {order[0]} by {
        forall x | x in keys ensures x in rest + {order[0]} {
          var i :| 0 <= i < |order| && order[i] == x;
          if i > 0 { assert order[1..][i - 1] == x; }
        }
      }
      assert order[0] !in rest;
      WriteThroughIsExpected(WriteOne(cache, news, order[0], c).0, news, order[1..], c);
      ExpectedStep(cache, news, order[0], rest, c);
    }
  }

  /** Because map keys are distinct, the final cache does not depend on the iteration order. */
  lemma WriteThroughOrderIndependent(cache: Cache, news: map<string, NewsArticle>,
                                     order1: seq<string>, order2: seq<string>, c: Collaborators)
    requires IsIterationOrder(order1, news) && IsIterationOrder(order2, news)
    ensures WriteThrough(cache, news, order1, c).0 == WriteThrough(cache, news, order2, c).0
  {
    WriteThroughIsExpected(cache, news, order1, c);
    WriteThroughIsExpected(cache, news, order2, c);
    OrderCoversKeys(order1, news);
    OrderCoversKeys(order2, news);
  }

  lemma OrderCoversKeys(order: seq<string>, news: map<string, NewsArticle>)
    requires IsIterationOrder(order, news)
    ensures Visited(order) == news.Keys
  {
  }

  /**
   After a full pass, each key of the map is in the cache with its marshalled value and
   the 24-hour expiry exactly when it marshals and stores; a key that fails to marshal is
   never written; keys outside the map are untouched.
   */
  lemma WriteThroughEffect(cache: Cache, news: map<string, NewsArticle>, order: seq<string>, c: Collaborators)
    requires IsIterationOrder(order, news)
    ensures var after := WriteThrough(cache, news, order, c).0;
      && (forall k :: k in news && Writes(news, k, c) ==>
            k in after && after[k] == Entry(c.marshal(news[k]).value, ExpirationTTL))
      && (forall k :: k in news && !Writes(news, k, c) ==>
            (k in after <==> k in cache) && (k in cache ==> after[k] == cache[k]))
      && (forall k :: k !in news ==> (k in after <==> k in cache) && (k in cache ==> after[k] == cache[k]))
      && (forall k :: k in news && c.marshal(news[k]).Failed? ==> (k in after <==> k in cache))
  {
    WriteThroughIsExpected(cache, news, order, c);
    OrderCoversKeys(order, news);
  }

  /** `http.Error`: the error text and a newline, as plain text, with status 500. */
  function ErrorResponse(e: Error): (r: HttpResponse)
    ensures r.status == 500 && r.body == e.text + "\n"
  {
    HttpResponse(StatusInternalServerError, "text/plain; charset=utf-8", e.text + "\n")
  }

  function MapOrEmpty(data: Option<map<string, NewsArticle>>): map<string, NewsArticle>
  {
    if data.Some? then data.value else map[]
  }

  function GetEveryHackingNews(fetched: TitleMapResponse, cache: Cache, order: seq<string>, c: Collaborators)
    : (r: HandlerResult)
    requires IsIterationOrder(order, MapOrEmpty(fetched.data))
    ensures fetched.err.Some? ==>
      r.response == ErrorResponse(fetched.err.value) && r.cache == cache && r.attempts == []
    ensures fetched.err.None? ==> |r.attempts| == |order|
    ensures fetched.err.None? ==> (r.cache, r.attempts) == WriteThrough(cache, MapOrEmpty(fetched.data), order, c)
    ensures fetched.err.None? ==>
      r.cache == Expected(cache, MapOrEmpty(fetched.data), MapOrEmpty(fetched.data).Keys, c)
    ensures fetched.err.None? && c.encode(fetched.data).Ok? ==>
      r.response == HttpResponse(StatusOK, "application/json", c.encode(fetched.data).value + "\n")
    ensures fetched.err.None? && c.encode(fetched.data).Failed? ==>
      r.response == ErrorResponse(c.encode(fetched.data).error)
  {
    if fetched.err.Some? then
      HandlerResult(ErrorResponse(fetched.err.value), cache, [])
    else
      WriteThroughAttempts(cache, MapOrEmpty(fetched.data), order, c);
      WriteThroughIsExpected(cache, MapOrEmpty(fetched.data), order, c);
      OrderCoversKeys(order, MapOrEmpty(fetched.data));
      var (cache', attempts) := WriteThrough(cache, MapOrEmpty(fetched.data), order, c);
      var response :=
        match c.encode(fetched.data)
        case Ok(json) => HttpResponse(StatusOK, "application/json", json + "\n")
        case Failed(e) => ErrorResponse(e);
      HandlerResult(response, cache', attempts)
  }

  /** The response encodes the whole fetched map whatever the cache writes did. */
  lemma ResponseIgnoresCacheFailures(fetched: TitleMapResponse, cache: Cache, order: seq<string>,
                                     c1: Collaborators, c2: Collaborators)
    requires IsIterationOrder(order, MapOrEmpty(fetched.data))
    requires c1.encode == c2.encode
    ensures GetEveryHackingNews(fetched, cache, order, c1).response
         == GetEveryHackingNews(fetched, cache, order, c2).response
  {
  }

  /** The handler's test: a fetch error "fetch error" answers 500 with body "fetch error\n". */
  lemma FetchErrorAnswers500(cache: Cache, c: Collaborators)
    ensures var r := GetEveryHackingNews(TitleMapResponse(None, Some(Error("fetch error"))), cache, [], c);
      r.response.status == 500 && r.response.body == "fetch error\n" && r.cache == cache
  {
  }
}
