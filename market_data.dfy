/**
 * The two market-data lookups the chat bot calls: a quote lookup (the price
 * function of data_collector.py) and a news lookup (the news function of
 * news_collector.py). Both reach a remote provider and swallow its failures,
 * so here they are oracles: total functions from a ticker to what the
 * lookup returns.
 */
module MarketData {
  import opened Wrappers

  /** What the quote lookup returns on success. The price is already rendered with two decimals. */
  datatype Quote = Quote(ticker: string, currentPrice: string, companyName: string, sector: string)

  /** One processed news item. */
  datatype Article = Article(title: string, summary: string, link: string, published: string, provider: string)

  /** The news lookup keeps at most the five newest items. */
  const MaxArticles: nat := 5

  type NewsList = news: seq<Article> | |news| <= MaxArticles

  /** `None` stands for every failure of the quote lookup (the source's `None`). */
  type QuoteOracle = string -> Option<Quote>

  /** A failed news lookup yields the empty list. */
  type NewsOracle = string -> NewsList
}
