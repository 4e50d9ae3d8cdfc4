/**
 `LoadConfig`: the API key comes from the environment variable
 NEWSFETCHER_GOOGLE_API_KEY, whose value (the empty string when unset, as
 `os.Getenv` reports it) is the input here.
 */
module Config {
  import opened Basics

  datatype Config = Config(googleAPIKey: string)

  /** The `(*Config, error)` pair. */
  datatype LoadResult = LoadResult(config: Option<Config>, err: Option<Error>)

  function MissingKeyError(): Error
  {
    Error("environment variable NEWSFETCHER_GOOGLE_API_KEY is required but not set")
  }

  function LoadConfig(envValue: string): (r: LoadResult)
    ensures r.config.Some? != r.err.Some?
    ensures r.err.Some? <==> envValue == ""
    ensures r.err.Some? ==> r.err.value.text == "environment variable NEWSFETCHER_GOOGLE_API_KEY is required but not set"
    ensures r.config.Some? ==> r.config.value.googleAPIKey == envValue
  {
    if envValue == "" then LoadResult(None, Some(MissingKeyError()))
    else LoadResult(Some(Config(envValue)), None)
  }

  /** The tests' cases: "test-api-key" is kept verbatim, and a blank value is accepted untrimmed. */
  lemma LoadConfigExamples()
    ensures LoadConfig("test-api-key") == LoadResult(Some(Config("test-api-key")), None)
    ensures LoadConfig(" ") == LoadResult(Some(Config(" ")), None)
    ensures LoadConfig("").config.None?
  {
  }
}
