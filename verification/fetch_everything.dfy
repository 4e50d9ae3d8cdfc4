/**
 `FetchEverythingNews`: one call of the search API's 'everything' endpoint, as an
 error cascade over its collaborators (URL builder, HTTP GET, JSON decoder,
 near-duplicate filter), each supplied as an input.
 */
module FetchEverything {
  import opened Basics
  import opened Models
  import opened Calendar
  import opened Similarity
  import opened Dedup

  /** The search expression used for every news type. */
  const HackingQuery: string :=
    "\n    \"data breach\" OR \n    \"hacker\" OR \n    \"hackers\" OR \n    \"hacked\" OR \n    \"malware\" OR \n    \"exploited vulnerability\"\n    -\"how to\"\n    -\"your\"\n    -\"you\"\n    -\"my\"\n    "
  const NewsLanguage: string := "en"
  const NewsDomains: string :=
    "thehackernews.com,hackread.com,talosintelligence.com,bleepingcomputer.com,cisa.gov,csoonline.com,threatpost.com,krebsonsecurity.com,wired.com,zdnet.com,virtualattacks.com"
  const NewsSortBy: string := "publishedAt"
  const NewsPageSize: string := "10"
  const EverythingEndpoint: string := "https://newsapi.org/v2/everything"
  /** Length limit handed to the URL builder. */
  const MaxEncodedQueryLength: int := 500
  /** Similarity at or above which the filter treats two titles as duplicates. */
  const DedupThreshold: real := 0.6
  /** The article field the filter compares. */
  const DedupField: string := "Title"

  /** The parsed base URL the URL builder returns; its structure is not modelled. */
  datatype Url = Url(text: string)

  /** An HTTP GET: the base URL with its query parameters in the order they were added. */
  datatype Request = Request(base: Url, params: seq<(string, string)>)

  /** An HTTP response as handed to the JSON decoder. */
  datatype Response = Response(body: string)

  /** The HTTP client's `Get`. */
  type Client = Request -> Result<Response>

  /** The collaborators other than the HTTP client, and the clock's date. */
  datatype Environment = Environment(
    urlParser: (string, string, int) -> Result<Url>,
    decode: Response -> Result<seq<NewsArticle>>,
    removeDuplicates: (seq<NewsArticle>, real, string) -> seq<NewsArticle>,
    today: CivilDate)

  /** What the function returns, with the HTTP requests it issued on the way. */
  datatype FetchOutcome = FetchOutcome(
    articles: Option<seq<NewsArticle>>,
    err: Option<Error>,
    requests: seq<Request>)

  /** The query for a news type: every type, known or not, gets the hacking query. */
  function QueryFor(newsType: string): (q: string)
    ensures q == HackingQuery
  {
    if newsType == "hacking" then HackingQuery else HackingQuery
  }

  /** The nine query parameters, in the order the code adds them. */
  function QueryParams(today: CivilDate, apiKey: string): (p: seq<(string, string)>)
    ensures |p| == 9
    ensures p[0] == ("q", HackingQuery) && p[8] == ("apiKey", apiKey)
    ensures forall i, j :: 0 <= i < j < |p| ==> p[i].0 != p[j].0
  {
    [ ("q", HackingQuery),
      ("searchin", "title"),
      ("language", NewsLanguage),
      ("sortBy", NewsSortBy),
      ("domains", NewsDomains),
      ("pageSize", NewsPageSize),
      ("from", FormatDate(AddDays(today, -7))),
      ("to", FormatDate(today)),
      ("apiKey", apiKey) ]
  }

  function FetchEverythingNews(newsType: string, apiKey: string, client: Client, env: Environment)
    : (r: FetchOutcome)
    ensures r.articles.Some? <==> r.err.None?
    ensures |r.requests| <= 1
    ensures r.requests == [] <==> env.urlParser(QueryFor(newsType), EverythingEndpoint, MaxEncodedQueryLength).Failed?
    ensures forall i :: 0 <= i < |r.requests| ==> r.requests[i].params == QueryParams(env.today, apiKey)
  {
    var query := QueryFor(newsType);
    match env.urlParser(query, EverythingEndpoint, MaxEncodedQueryLength)
    case Failed(e) => FetchOutcome(None, Some(e), [])
    case Ok(base) =>
      var request := Request(base, QueryParams(env.today, apiKey));
      match client(request)
      case Failed(e) => FetchOutcome(None, Some(e), [request])
      case Ok(response) =>
        match env.decode(response)
        case Failed(e) => FetchOutcome(None, Some(e), [request])
        case Ok(decoded) =>
          FetchOutcome(Some(env.removeDuplicates(decoded, DedupThreshold, DedupField)), None, [request])
  }

  /**
   The error cascade: the first collaborator that fails decides the error, which is
   returned unchanged with nil articles; otherwise the articles are the filter's
   output on the decoded list, at threshold 0.6 on Title, with a nil error.
   */
  lemma FetchCascade(newsType: string, apiKey: string, client: Client, env: Environment)
    ensures var r := FetchEverythingNews(newsType, apiKey, client, env);
      match env.urlParser(HackingQuery, EverythingEndpoint, MaxEncodedQueryLength)
      case Failed(e) => r.articles.None? && r.err == Some(e) && r.requests == []
      case Ok(base) =>
        var request := Request(base, QueryParams(env.today, apiKey));
        r.requests == [request] &&
        match client(request)
        case Failed(e) => r.articles.None? && r.err == Some(e)
        case Ok(response) =>
          match env.decode(response)
          case Failed(e) => r.articles.None? && r.err == Some(e)
          case Ok(decoded) =>
            r.err.None? && r.articles == Some(env.removeDuplicates(decoded, 0.6, "Title"))
  {
  }

  /** The result does not depend on the news type. */
  lemma NewsTypeIrrelevant(t1: string, t2: string, apiKey: string, client: Client, env: Environment)
    ensures FetchEverythingNews(t1, apiKey, client, env) == FetchEverythingNews(t2, apiKey, client, env)
  {
  }

  /**
   The `from` parameter is the date seven calendar days before the `to` parameter,
   and `to` is today, both read back from their "2006-01-02" text.
   */
  lemma QueryWindowIsOneWeek(today: CivilDate, apiKey: string)
    requires 7 <= today.year <= 9999
    ensures var p := QueryParams(today, apiKey);
      p[6].0 == "from" && p[7].0 == "to" &&
      ParseDate(p[7].1) == Some(today) &&
      ParseDate(p[6].1).Some? && AddDays(ParseDate(p[6].1).value, 7) == today &&
      DayNumber(today) - DayNumber(ParseDate(p[6].1).value) == 7
  {
    var from := AddDays(today, -7);
    AddDaysBackYear(today, 7);
    ParseFormatDate(today);
    ParseFormatDate(from);
    AddDaysInverse(today, 7);
    AddDaysNumber(today, -7);
  }

  /**
   The successful-fetch expectation: a response decoding to "Test News 1" then
   "Test News 2" yields only the first, when the filter is the keep-first stand-in
   (an assumption about the library filter), whatever the substitution cost.
   */
  lemma TestNewsKeepsFirst(apiKey: string, base: Url, response: Response, today: CivilDate, subCost: nat)
    ensures
      var first, second := Titled("Test News 1"), Titled("Test News 2");
      var client: Client := _ => Ok(response);
      var env := Environment(
        (_, _, _) => Ok(base),
        _ => Ok([first, second]),
        (articles, threshold, _) => KeepFirst(articles, SimilarAtLeast(threshold, subCost)),
        today);
      var r := FetchEverythingNews("hacking", apiKey, client, env);
      r.articles == Some([first]) && r.err.None?
  {
    var first, second := Titled("Test News 1"), Titled("Test News 2");
    var p := "Test News ";
    assert first.title == p + ['1'] && second.title == p + ['2'];
    RuneSimilarityLastDiffers(p, '1', '2', subCost);
    var near := SimilarAtLeast(0.6, subCost);
    assert near(first.title, second.title);
    var xs := [first, second];
    assert xs[..1] == [first] && [first][..0] == [];
    assert KeepFirst([first], near) == [first];
    assert NearDuplicateOfKept([first], second, near);
    assert KeepFirst(xs, near) == [first];
  }

  /** The HTTP-failure expectation: the client's error comes back unchanged with nil articles. */
  lemma HttpFailurePassesThrough(apiKey: string, base: Url, env: Environment)
    requires env.urlParser(HackingQuery, EverythingEndpoint, MaxEncodedQueryLength) == Ok(base)
    ensures
      var client: Client := _ => Failed(Error("http request error"));
      var r := FetchEverythingNews("hacking", apiKey, client, env);
      r.articles.None? && r.err == Some(Error("http request error"))
  {
  }
}
