/** The article records decoded from the news-search API's JSON. */
module Models {

  /** The source of a news article. */
  datatype NewsSource = NewsSource(id: string, name: string)

  /** A single news article from the search API's 'everything' endpoint. */
  datatype NewsArticle = NewsArticle(
    title: string,
    url: string,
    description: string,
    source: NewsSource,
    publishedAt: string)

  /** An article with only its title set, the other fields at Go's zero values. */
  function Titled(title: string): (a: NewsArticle)
    ensures a.title == title
  {
    NewsArticle(title, "", "", NewsSource("", ""), "")
  }
}
