/** The two request handlers that touch the word statistics: the
    random-article route, which records the word it serves, and the
    common-words route, which reports the most served words. The upstream
    responses are inputs; no request is made. */
module App {
  import opened Api
  import opened QueryParams
  import opened Statistics
  import opened Counter

  /** The random-article answer: `{'word': ..., 'article': ...}`. */
  datatype Article = Article(word: Word, article: string)

  /** The random-article route. `wordQuery` is the query sent to the
      random-word service; `wordResponse` is what that service answered
      and `articleResponse` what the article service answered for the
      word. The word is recorded only when both answered 200; otherwise
      the request fails with the upstream error and the counter is left
      exactly as it was. */
  method RandomArticle(stats: WordStatistics, lenArg: Option<string>,
                       wordResponse: Response, articleResponse: Response)
      returns (wordQuery: map<string, string>, r: Result<Article>)
    requires stats.Valid()
    modifies stats
    ensures stats.Valid()
    ensures wordQuery == LengthQuery(lenArg)
    ensures r.Ok? <==> wordResponse.statusCode == HTTP_OK && articleResponse.statusCode == HTTP_OK
    ensures r.Ok? ==> r.value == Article(wordResponse.content, articleResponse.content)
    ensures r.Ok? ==> stats.View() == Record(old(stats.View()), wordResponse.content)
    ensures r.Err? ==> r.error == UpstreamFailure && stats.View() == old(stats.View())
  {
    wordQuery := LengthQuery(lenArg);
    if wordResponse.statusCode != HTTP_OK {
      return wordQuery, Err(UpstreamFailure);
    }
    var word := wordResponse.content;
    if articleResponse.statusCode != HTTP_OK {
      return wordQuery, Err(UpstreamFailure);
    }
    stats.Increment(word);
    r := Ok(Article(word, articleResponse.content));
  }

  /** The common-words route: the `n` (or `N`) most served words with
      their counts, or the "Non relevant n amount" error. It only reads
      the counter. */
  function CommonWords(stats: WordStatistics, nArg: Option<string>, upperNArg: Option<string>)
    : (r: Result<seq<Entry>>)
    reads stats
    requires stats.Valid()
    ensures r.Err? <==> RequestedAmount(nArg, upperNArg).Err?
    ensures r.Err? ==> r.error == BadAmount
    ensures r.Ok? ==> r.value == TopN(stats.View(), RequestedAmount(nArg, upperNArg).value)
  {
    match RequestedAmount(nArg, upperNArg)
    case Ok(k) => Ok(TopN(stats.View(), k))
    case Err(e) => Err(e)
  }
}
