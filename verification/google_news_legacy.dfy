/**
 The earlier `FetchEverythingHacking` (package `api` at the repository root): the
 same deadline `select`, but a delivered article list is turned into a map from
 the hex MD5 of each title to the article.

 MD5 is an input function returning 16 bytes. The worker, `services.FetchEverythingNews`,
 is not part of this model and is an input too.
 */
module GoogleNewsLegacy {
  import opened Basics
  import opened Models
  import opened Utf8
  import opened Hex
  import GoogleNews
  import opened FetchEverything

  type Digest = d: seq<byte> | |d| == 16 witness [0, 0, 0, 0, 0, 0, 0, 0, 0, 0, 0, 0, 0, 0, 0, 0]

  /** `md5.Sum`. */
  type Md5 = seq<byte> -> Digest

  /** The worker: `(newsType, apiKey, client)` to the articles and error it sends. */
  type Worker = (string, string, Client) -> GoogleNews.NewsAPIResponse

  /** What this revision returns: the title-keyed map (nil on timeout) and the error. */
  datatype TitleMapResponse = TitleMapResponse(data: Option<map<string, NewsArticle>>, err: Option<Error>)

  /** `fmt.Sprintf("%x", md5.Sum([]byte(article.Title)))`. */
  function TitleKey(md5: Md5, a: NewsArticle): (k: string)
    ensures |k| == 32
    ensures forall i :: 0 <= i < |k| ==> IsLowerHexDigit(k[i])
  {
    HexLower(md5(Encode(a.title)))
  }

  /** The position of the last article whose title has key `k`, or -1 when there is none. */
  function LastWithKey(articles: seq<NewsArticle>, md5: Md5, k: string): (i: int)
    ensures -1 <= i < |articles|
    ensures i >= 0 ==> TitleKey(md5, articles[i]) == k
    ensures forall j :: i < j < |articles| ==> TitleKey(md5, articles[j]) != k
  {
    if |articles| == 0 then -1
    else if TitleKey(md5, articles[|articles| - 1]) == k then |articles| - 1
    else
      var init := articles[..|articles| - 1];
      assert forall j :: 0 <= j < |init| ==> init[j] == articles[j];
      LastWithKey(init, md5, k)
  }

  /** The `for _, article := range` loop writing `data[hashedTitle] = article` in list order. */
  function BuildTitleMap(articles: seq<NewsArticle>, md5: Md5): map<string, NewsArticle>
  {
    if |articles| == 0 then map[]
    else BuildTitleMap(articles[..|articles| - 1], md5)[TitleKey(md5, articles[|articles| - 1]) := articles[|articles| - 1]]
  }

  /** The key set is exactly the keys the listed titles hash to. */
  lemma {:induction false} BuildTitleMapKeys(articles: seq<NewsArticle>, md5: Md5)
    ensures BuildTitleMap(articles, md5).Keys == KeysOf(articles, md5)
  {
    if |articles| > 0 {
      BuildTitleMapKeys(articles[..|articles| - 1], md5);
      KeysOfSnoc(articles, md5);
    }
  }

  /** The set of keys the articles' titles hash to. */
  function KeysOf(articles: seq<NewsArticle>, md5: Md5): set<string>
  {
    set i | 0 <= i < |articles| :: TitleKey(md5, articles[i])
  }

  lemma KeysOfSnoc(articles: seq<NewsArticle>, md5: Md5)
    requires |articles| > 0
    ensures KeysOf(articles, md5)
         == KeysOf(articles[..|articles| - 1], md5) + {TitleKey(md5, articles[|articles| - 1])}
  {
    var init := articles[..|articles| - 1];
    forall i | 0 <= i < |init| ensures init[i] == articles[i] { }
  }

  /** The map never has more entries than the list has articles. */
  lemma {:induction false} BuildTitleMapSize(articles: seq<NewsArticle>, md5: Md5)
    ensures |BuildTitleMap(articles, md5)| <= |articles|
  {
    if |articles| > 0 {
      BuildTitleMapSize(articles[..|articles| - 1], md5);
    }
  }

  /** Last write wins: each key holds the last article in list order whose title hashes to it. */
  lemma {:induction false} BuildTitleMapLastWins(articles: seq<NewsArticle>, md5: Md5, k: string)
    requires k in BuildTitleMap(articles, md5)
    ensures LastWithKey(articles, md5, k) >= 0
    ensures BuildTitleMap(articles, md5)[k] == articles[LastWithKey(articles, md5, k)]
  {
    var init := articles[..|articles| - 1];
    var last := articles[|articles| - 1];
    if TitleKey(md5, last) != k {
      BuildTitleMapLastWins(init, md5, k);
    }
  }

  /** Every key is the 32-character lower-case `%x` rendering of the digest of a listed title. */
  lemma TitleMapKeysAreHex(articles: seq<NewsArticle>, md5: Md5, k: string)
    requires k in BuildTitleMap(articles, md5)
    ensures |k| == 32
    ensures forall i :: 0 <= i < |k| ==> IsLowerHexDigit(k[i])
    ensures exists i :: 0 <= i < |articles| && TitleKey(md5, articles[i]) == k
  {
    BuildTitleMapKeys(articles, md5);
  }

  /** A key reads back as the digest it renders: nothing is lost in the hex rendering. */
  lemma TitleKeyParses(md5: Md5, a: NewsArticle)
    ensures ParseHex(TitleKey(md5, a)) == Some(md5(Encode(a.title)))
  {
    ParseHexLower(md5(Encode(a.title)));
  }

  /** Articles with the same title collapse onto one key, holding the later of them or a later namesake. */
  lemma {:induction false} SameTitleCollapses(articles: seq<NewsArticle>, md5: Md5, i: int, j: int)
    requires 0 <= i < j < |articles| && articles[i].title == articles[j].title
    ensures var m := BuildTitleMap(articles, md5); var k := TitleKey(md5, articles[i]);
      k == TitleKey(md5, articles[j]) && k in m && LastWithKey(articles, md5, k) >= j
  {
    var k := TitleKey(md5, articles[i]);
    var m := BuildTitleMap(articles, md5);
    BuildTitleMapKeys(articles, md5);
    assert k in KeysOf(articles, md5);
    BuildTitleMapLastWins(articles, md5, k);
  }

  /** Distinct titles give distinct keys exactly when MD5 separates them. */
  lemma KeysSeparateWhenDigestsDiffer(md5: Md5, a: NewsArticle, b: NewsArticle)
    ensures TitleKey(md5, a) == TitleKey(md5, b) <==> md5(Encode(a.title)) == md5(Encode(b.title))
  {
    if TitleKey(md5, a) == TitleKey(md5, b) {
      HexLowerInjective(md5(Encode(a.title)), md5(Encode(b.title)));
    }
  }

  function FetchEverythingHacking(api: GoogleNews.GoogleNewsAPI, worker: Worker,
                                          md5: Md5, t: GoogleNews.Timing): (r: TitleMapResponse)
    ensures !GoogleNews.DeliveryWins(t) ==> r == TitleMapResponse(None, Some(GoogleNews.TimeoutError()))
    ensures GoogleNews.DeliveryWins(t) ==>
      var delivered := worker("hacking", api.apiKey, api.httpClient);
      var articles := if delivered.articles.Some? then delivered.articles.value else [];
      r.err == delivered.err && r.data == Some(BuildTitleMap(articles, md5))
      && r.data.value.Keys == KeysOf(articles, md5)
      && |r.data.value| <= |articles|
  {
    var delivered := worker("hacking", api.apiKey, api.httpClient);
    match GoogleNews.Observe(t, delivered)
    case DeadlineOrParentCancelled => TitleMapResponse(None, Some(GoogleNews.TimeoutError()))
    case Delivered(response) =>
      var articles := if response.articles.Some? then response.articles.value else [];
      BuildTitleMapKeys(articles, md5);
      BuildTitleMapSize(articles, md5);
      TitleMapResponse(Some(BuildTitleMap(articles, md5)), response.err)
  }
}
