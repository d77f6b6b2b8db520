/**
 * The chat bot's dispatch (chat_engine.py): the stock report built from the
 * two market-data lookups, the keyword-driven reply without context, and the
 * context-aware reply that consults and then updates the conversation store.
 */
module ChatEngine {
  import opened Wrappers
  import opened Text
  import opened MarketData
  import opened Conversation

  // ---------------------------------------------------------------------------
  // Stock report

  const QuoteUnavailable := "❌ 주식 정보를 가져올 수 없습니다"

  /** The headline of the first article is cut to this many characters. */
  const HeadlineWidth: nat := 50

  /** The first line of a report, with the company name. */
  function Opening(q: Quote): string
  {
    "📊 " + q.companyName + " 분석:\n"
  }

  function Details(q: Quote): string
  {
    "💰 현재 가격: $" + q.currentPrice + "\n🏢 섹터: " + q.sector
  }

  function CountLine(news: NewsList): string
  {
    "\n📰 최근 뉴스: " + NatToString(|news|) + "건"
  }

  /** The headline line, present only when there is news. */
  function Closing(news: NewsList): string
  {
    if |news| > 0 then "\n🔥 주요 뉴스: " + Take(news[0].title, HeadlineWidth) + "..." else ""
  }

  /** The report before the final strip. */
  function Report(q: Quote, news: NewsList): string
  {
    Opening(q) + Details(q) + CountLine(news) + Closing(news)
  }

  /** The report opens with the company name. */
  lemma ReportOpening(q: Quote, news: NewsList)
    ensures IsPrefix(Opening(q), Report(q, news))
  {
    var rest := Details(q) + CountLine(news) + Closing(news);
    assert Report(q, news) == Opening(q) + rest;
    ConcatEnds(Opening(q), rest);
  }

  /** The report ends with the cut headline and "..." when there is news, else with the count line. */
  lemma ReportEnding(q: Quote, news: NewsList)
    ensures |news| > 0 ==> EndsWith(Report(q, news), Closing(news))
    ensures |news| == 0 ==> EndsWith(Report(q, news), CountLine(news))
    ensures EndsWith(Report(q, news), "...") <==> |news| > 0
  {
    var r := Report(q, news);
    var front := Opening(q) + Details(q);
    if |news| > 0 {
      ConcatEnds(front + CountLine(news), Closing(news));
      ConcatEnds("\n🔥 주요 뉴스: " + Take(news[0].title, HeadlineWidth), "...");
      EndsWithTransitive(r, Closing(news), "...");
    } else {
      assert r == front + CountLine(news);
      ConcatEnds(front, CountLine(news));
      ConcatEnds("\n📰 최근 뉴스: " + NatToString(|news|), "건");
      EndsWithTransitive(r, CountLine(news), "건");
      if EndsWith(r, "...") {
        LastOfEnding(r, "...");
        LastOfEnding(r, "건");
        assert false;
      }
    }
  }

  /** The report carries the news count. */
  lemma ReportCount(q: Quote, news: NewsList)
    ensures Contains(Report(q, news), CountLine(news))
  {
    ContainsInfix(Opening(q) + Details(q), CountLine(news), Closing(news));
  }

  lemma ReportFirstChar(q: Quote, news: NewsList)
    ensures |Report(q, news)| > 0 && Report(q, news)[0] == '📊'
  {
    ReportOpening(q, news);
    assert Report(q, news)[0] == Opening(q)[0];
  }

  lemma ReportLastChar(q: Quote, news: NewsList)
    ensures Report(q, news)[|Report(q, news)| - 1] == if |news| > 0 then '.' else '건'
  {
    ReportEnding(q, news);
    if |news| > 0 {
      LastOfEnding(Report(q, news), "...");
    } else {
      ConcatEnds("\n📰 최근 뉴스: " + NatToString(|news|), "건");
      EndsWithTransitive(Report(q, news), CountLine(news), "건");
      LastOfEnding(Report(q, news), "건");
    }
  }

  /**
   * Since the report starts with an emoji and ends with '건' or '.',
   * stripping it changes nothing.
   */
  lemma ReportIsStripped(q: Quote, news: NewsList)
    ensures Strip(Report(q, news)) == Report(q, news)
  {
    ReportFirstChar(q, news);
    ReportLastChar(q, news);
    StripUnchanged(Report(q, news));
  }

  /**
   * The analysis of a ticker: the fixed failure text when the quote lookup
   * fails; otherwise a report that opens with the company name, shows the
   * number of news items, and ends with the first headline cut to
   * `HeadlineWidth` characters plus "..." exactly when there is news.
   */
  function StockAnalysis(ticker: string, quoteOf: QuoteOracle, newsOf: NewsOracle): (r: string)
    ensures quoteOf(ticker).None? ==> r == QuoteUnavailable
    ensures quoteOf(ticker).Some? ==> r == Report(quoteOf(ticker).value, newsOf(ticker))
  {
    match quoteOf(ticker)
    case None => QuoteUnavailable
    case Some(q) =>
      var news := newsOf(ticker);
      ReportIsStripped(q, news);
      Strip(Report(q, news))
  }

  /**
   * A report opens with the company name, carries the news count, and ends
   * with the first headline cut to `HeadlineWidth` characters plus "..."
   * exactly when there is news (with the count line otherwise).
   */
  lemma StockAnalysisShape(ticker: string, quoteOf: QuoteOracle, newsOf: NewsOracle)
    requires quoteOf(ticker).Some?
    ensures IsPrefix(Opening(quoteOf(ticker).value), StockAnalysis(ticker, quoteOf, newsOf))
    ensures Contains(StockAnalysis(ticker, quoteOf, newsOf), CountLine(newsOf(ticker)))
    ensures EndsWith(StockAnalysis(ticker, quoteOf, newsOf), "...") <==> |newsOf(ticker)| > 0
    ensures |newsOf(ticker)| > 0 ==> EndsWith(StockAnalysis(ticker, quoteOf, newsOf), Closing(newsOf(ticker)))
    ensures |newsOf(ticker)| == 0 ==> EndsWith(StockAnalysis(ticker, quoteOf, newsOf), CountLine(newsOf(ticker)))
  {
    var q := quoteOf(ticker).value;
    var news := newsOf(ticker);
    ReportOpening(q, news);
    ReportEnding(q, news);
    ReportCount(q, news);
  }

  /** A failed quote lookup never looks like a report. */
  lemma UnavailableIsNotAReport(ticker: string, quoteOf: QuoteOracle, newsOf: NewsOracle)
    ensures StockAnalysis(ticker, quoteOf, newsOf) == QuoteUnavailable <==> quoteOf(ticker).None?
  {
    var r := StockAnalysis(ticker, quoteOf, newsOf);
    if quoteOf(ticker).Some? {
      assert r[0] == '📊';
    }
  }

  // ---------------------------------------------------------------------------
  // Reply without context

  /** The company aliases an analysis request may use, in the order they are tried. */
  const Aliases: seq<string> := ["애플", "AAPL", "테슬라", "TSLA", "삼성", "005930"]

  /** The ticker an alias stands for; `None` for any other text. */
  function AliasTicker(alias: string): Option<string>
  {
    if alias in ["애플", "AAPL"] then Some("AAPL")
    else if alias in ["테슬라", "TSLA"] then Some("TSLA")
    else if alias in ["삼성", "005930"] then Some("005930.KS")
    else None
  }

  /** Every alias is in one of the three lists the reply without context tests. */
  lemma AliasListed(k: nat)
    requires k < |Aliases|
    ensures Aliases[k] in ["애플", "AAPL"] || Aliases[k] in ["테슬라", "TSLA"] || Aliases[k] in ["삼성", "005930"]
  {
  }

  /** Every alias stands for a ticker. */
  lemma AliasesAllMapped()
    ensures AllMapped(Aliases, AliasTicker)
  {
  }

  /**
   * Scanning `aliases` from position `k`: the ticker `tickerOf` gives the
   * first one whose lower-cased form occurs in `lower`; an alias without a
   * ticker is passed over.
   */
  function FirstAliasFrom(lower: string, aliases: seq<string>, tickerOf: string -> Option<string>, k: nat): Option<string>
    decreases |aliases| - k
  {
    if k >= |aliases| then None
    else if Contains(lower, Lower(aliases[k])) && tickerOf(aliases[k]).Some? then tickerOf(aliases[k])
    else FirstAliasFrom(lower, aliases, tickerOf, k + 1)
  }

  function FirstAlias(lower: string): Option<string>
  {
    FirstAliasFrom(lower, Aliases, AliasTicker, 0)
  }

  /** `lower` names the alias at position k. */
  predicate HasAlias(lower: string, k: nat)
    requires k < |Aliases|
  {
    Contains(lower, Lower(Aliases[k]))
  }

  /** Every alias of `aliases` has a ticker. */
  predicate AllMapped(aliases: seq<string>, tickerOf: string -> Option<string>)
  {
    forall i | 0 <= i < |aliases| :: tickerOf(aliases[i]).Some?
  }

  /** A scan from position `k` that finds nothing met no occurring alias from `k` on. */
  lemma {:induction false} FirstAliasFromNoneSound(lower: string, aliases: seq<string>, tickerOf: string -> Option<string>, k: nat)
    requires k <= |aliases| && AllMapped(aliases, tickerOf)
    requires FirstAliasFrom(lower, aliases, tickerOf, k).None?
    ensures forall a | k <= a < |aliases| :: !Contains(lower, Lower(aliases[a]))
    decreases |aliases| - k
  {
    if k < |aliases| {
      assert tickerOf(aliases[k]).Some?;
      FirstAliasFromNoneSound(lower, aliases, tickerOf, k + 1);
    }
  }

  /** A scan from position `k` over aliases none of which occurs finds nothing. */
  lemma {:induction false} FirstAliasFromNoneComplete(lower: string, aliases: seq<string>, tickerOf: string -> Option<string>, k: nat)
    requires k <= |aliases|
    requires forall a | k <= a < |aliases| :: !Contains(lower, Lower(aliases[a]))
    ensures FirstAliasFrom(lower, aliases, tickerOf, k).None?
    decreases |aliases| - k
  {
    if k < |aliases| {
      FirstAliasFromNoneComplete(lower, aliases, tickerOf, k + 1);
    }
  }

  /** What the scan from position `k` finds is the ticker of the first alias from `k` on that occurs. */
  lemma {:induction false} FirstAliasFromFound(lower: string, aliases: seq<string>, tickerOf: string -> Option<string>, k: nat)
    requires k <= |aliases| && AllMapped(aliases, tickerOf)
    ensures FirstAliasFrom(lower, aliases, tickerOf, k).Some? ==>
      exists a | k <= a < |aliases| ::
        && Contains(lower, Lower(aliases[a]))
        && (forall b | k <= b < a :: !Contains(lower, Lower(aliases[b])))
        && FirstAliasFrom(lower, aliases, tickerOf, k) == tickerOf(aliases[a])
    decreases |aliases| - k
  {
    if k < |aliases| && FirstAliasFrom(lower, aliases, tickerOf, k).Some? {
      if Contains(lower, Lower(aliases[k])) {
        assert tickerOf(aliases[k]).Some?;
        assert FirstAliasFrom(lower, aliases, tickerOf, k) == tickerOf(aliases[k]);
      } else {
        assert FirstAliasFrom(lower, aliases, tickerOf, k) == FirstAliasFrom(lower, aliases, tickerOf, k + 1);
        FirstAliasFromFound(lower, aliases, tickerOf, k + 1);
        var a :| k + 1 <= a < |aliases|
          && Contains(lower, Lower(aliases[a]))
          && (forall b | k + 1 <= b < a :: !Contains(lower, Lower(aliases[b])))
          && FirstAliasFrom(lower, aliases, tickerOf, k + 1) == tickerOf(aliases[a]);
        assert forall b | k <= b < a :: !Contains(lower, Lower(aliases[b]));
        assert FirstAliasFrom(lower, aliases, tickerOf, k) == tickerOf(aliases[a]);
      }
    }
  }

  /** The alias lookup gives `None` exactly when no alias occurs. */
  lemma FirstAliasMissing(lower: string)
    ensures FirstAlias(lower).None? <==> forall a | 0 <= a < |Aliases| :: !HasAlias(lower, a)
  {
    if FirstAlias(lower).None? {
      AliasesAllMapped();
      FirstAliasFromNoneSound(lower, Aliases, AliasTicker, 0);
    }
    if forall a | 0 <= a < |Aliases| :: !HasAlias(lower, a) {
      forall a | 0 <= a < |Aliases|
        ensures !Contains(lower, Lower(Aliases[a]))
      {
        assert !HasAlias(lower, a);
      }
      FirstAliasFromNoneComplete(lower, Aliases, AliasTicker, 0);
    }
  }

  /** A successful alias lookup gives the ticker of the first alias, in list order, that occurs. */
  lemma FirstAliasFound(lower: string)
    ensures FirstAlias(lower).Some? ==>
      exists a | 0 <= a < |Aliases| ::
        && HasAlias(lower, a)
        && (forall b | 0 <= b < a :: !HasAlias(lower, b))
        && FirstAlias(lower) == AliasTicker(Aliases[a])
  {
    if FirstAlias(lower).Some? {
      AliasesAllMapped();
      FirstAliasFromFound(lower, Aliases, AliasTicker, 0);
      var a :| 0 <= a < |Aliases|
        && Contains(lower, Lower(Aliases[a]))
        && (forall b | 0 <= b < a :: !Contains(lower, Lower(Aliases[b])))
        && FirstAlias(lower) == AliasTicker(Aliases[a]);
      assert HasAlias(lower, a);
      assert forall b | 0 <= b < a :: !HasAlias(lower, b);
    }
  }

  /**
   * The alias lookup gives `None` exactly when no alias occurs; otherwise it
   * gives the ticker of the first alias, in list order, that occurs.
   */
  lemma FirstAliasExactly(lower: string)
    ensures FirstAlias(lower).None? <==> forall a | 0 <= a < |Aliases| :: !HasAlias(lower, a)
    ensures FirstAlias(lower).Some? ==>
      exists a | 0 <= a < |Aliases| ::
        && HasAlias(lower, a)
        && (forall b | 0 <= b < a :: !HasAlias(lower, b))
        && FirstAlias(lower) == AliasTicker(Aliases[a])
  {
    FirstAliasMissing(lower);
    FirstAliasFound(lower);
  }

  predicate IsAnalysisRequest(lower: string)
  {
    Contains(lower, "분석") || Contains(lower, "어때")
  }

  predicate IsGreeting(lower: string)
  {
    Contains(lower, "안녕") || Contains(lower, "hello")
  }

  predicate IsPortfolioMention(lower: string)
  {
    Contains(lower, "포트폴리오")
  }

  const GreetingReply := "👋 안녕하세요! 포트폴리오 분석봇입니다. 어떤 주식에 대해 궁금하신가요?"
  const PortfolioReply := "📊 포트폴리오를 분석해드릴게요! '애플 30%, 테슬라 20%' 이런 식으로 말씀해주세요."
  const DefaultReply := "🤔 잘 모르겠어요. '애플 분석해줘' 또는 '테슬라 어때?' 같이 물어보세요!"

  /**
   * The reply without context: an analysis request is answered with the
   * report on the first alias it names, or with nothing (`None`) when it
   * names none; then greeting, portfolio and the default reply, in that order.
   */
  function OriginalReply(userMessage: string, quoteOf: QuoteOracle, newsOf: NewsOracle): Option<string>
  {
    var lower := Lower(userMessage);
    if IsAnalysisRequest(lower) then
      match FirstAlias(lower)
      case Some(ticker) => Some(StockAnalysis(ticker, quoteOf, newsOf))
      case None => None
    else if IsGreeting(lower) then Some(GreetingReply)
    else if IsPortfolioMention(lower) then Some(PortfolioReply)
    else Some(DefaultReply)
  }

  /**
   * The reply without context is missing exactly when the message asks for
   * an analysis and names no alias.
   */
  lemma OriginalReplyMissing(userMessage: string, quoteOf: QuoteOracle, newsOf: NewsOracle)
    ensures OriginalReply(userMessage, quoteOf, newsOf).None? <==>
      IsAnalysisRequest(Lower(userMessage)) && forall a | 0 <= a < |Aliases| :: !HasAlias(Lower(userMessage), a)
  {
    var lower := Lower(userMessage);
    OriginalReplyNone(userMessage, quoteOf, newsOf);
    FirstAliasExactly(lower);
  }

  /** The reply without context is missing exactly when an analysis request finds no alias. */
  lemma OriginalReplyNone(userMessage: string, quoteOf: QuoteOracle, newsOf: NewsOracle)
    ensures OriginalReply(userMessage, quoteOf, newsOf).None? <==>
      IsAnalysisRequest(Lower(userMessage)) && FirstAlias(Lower(userMessage)).None?
  {
  }

  /**
   * An analysis request that names an alias gets the report on the first
   * alias named, in alias-table order.
   */
  lemma OriginalReplyAnalysis(userMessage: string, quoteOf: QuoteOracle, newsOf: NewsOracle)
    requires IsAnalysisRequest(Lower(userMessage))
    requires OriginalReply(userMessage, quoteOf, newsOf).Some?
    ensures exists a | 0 <= a < |Aliases| ::
      && HasAlias(Lower(userMessage), a)
      && (forall b | 0 <= b < a :: !HasAlias(Lower(userMessage), b))
      && AliasTicker(Aliases[a]).Some?
      && OriginalReply(userMessage, quoteOf, newsOf) == Some(StockAnalysis(AliasTicker(Aliases[a]).value, quoteOf, newsOf))
  {
    var lower := Lower(userMessage);
    FirstAliasExactly(lower);
    var a :| 0 <= a < |Aliases| && HasAlias(lower, a) && (forall b | 0 <= b < a :: !HasAlias(lower, b))
      && FirstAlias(lower) == AliasTicker(Aliases[a]);
    assert OriginalReply(userMessage, quoteOf, newsOf) == Some(StockAnalysis(AliasTicker(Aliases[a]).value, quoteOf, newsOf));
  }

  // ---------------------------------------------------------------------------
  // Reply with context

  predicate IsRiskQuery(lower: string)
  {
    Contains(lower, "리스크") || Contains(lower, "위험")
  }

  /** The back-reference cue, as the source writes it ("그", "그거" or "그런데"). */
  predicate IsBackReference(lower: string)
  {
    Contains(lower, "그") || Contains(lower, "그거") || Contains(lower, "그런데")
  }

  predicate IsComparison(lower: string)
  {
    Contains(lower, "비교")
  }

  /** The two longer cues contain the short one, so the back-reference test is the test for "그" alone. */
  lemma BackReferenceIsShortCue(lower: string)
    ensures IsBackReference(lower) <==> Contains(lower, "그")
  {
    if Contains(lower, "그거") {
      assert "그거" == "그" + "거";
      ContainsPrefixOf(lower, "그", "거");
    }
    if Contains(lower, "그런데") {
      assert "그런데" == "그" + "런데";
      ContainsPrefixOf(lower, "그", "런데");
    }
  }

  function RiskReport(ticker: string): string
  {
    "🚨 " + ticker + " 투자 리스크:\n" + "• 시장 변동성에 민감\n" + "• 기술주 특성상 높은 변동폭\n" + "• 금리 인상 시 주가 하락 가능성"
  }

  const RiskPrompt := "어떤 주식의 리스크가 궁금하신가요? 먼저 종목을 말씀해주세요."

  function OutlookReport(ticker: string): string
  {
    "📈 " + ticker + " 전망:\n앞서 분석한 종목 기준으로, 장기적으로는 긍정적이지만 단기 변동성에 주의하세요."
  }

  function FollowUpReply(ticker: string): string
  {
    "📊 앞서 말씀드린 " + ticker + "에 대한 추가 정보가 필요하시다면 구체적으로 물어보세요!"
  }

  const FollowUpPrompt := "무엇에 대해 더 알고 싶으신가요?"

  function ComparisonReport(first: string, second: string): string
  {
    "📊 " + first + " vs " + second + " 비교:\n" + "두 종목 모두 기술주로서 비슷한 특성을 가지지만, 각각의 사업 영역이 다릅니다."
  }

  const ComparisonPrompt := "비교할 두 종목을 말씀해주세요!"

  /**
   * The context-aware reply to `userMessage`, given the stocks the session
   * mentioned before this message: risk, back-reference, comparison, and
   * otherwise the reply without context, the first that applies.
   */
  function ContextReply(userMessage: string, mentioned: seq<string>, quoteOf: QuoteOracle, newsOf: NewsOracle): Option<string>
  {
    var lower := Lower(userMessage);
    if IsRiskQuery(lower) then
      Some(if |mentioned| > 0 then RiskReport(mentioned[|mentioned| - 1]) else RiskPrompt)
    else if IsBackReference(lower) then
      Some(if |mentioned| == 0 then FollowUpPrompt
           else if Contains(lower, "전망") then OutlookReport(mentioned[|mentioned| - 1])
           else FollowUpReply(mentioned[|mentioned| - 1]))
    else if IsComparison(lower) then
      Some(if |mentioned| >= 2 then ComparisonReport(mentioned[|mentioned| - 2], mentioned[|mentioned| - 1])
           else ComparisonPrompt)
    else OriginalReply(userMessage, quoteOf, newsOf)
  }

  /** A risk keyword wins over every other keyword. */
  lemma RiskQueryFirst(userMessage: string, mentioned: seq<string>, quoteOf: QuoteOracle, newsOf: NewsOracle)
    requires IsRiskQuery(Lower(userMessage))
    ensures ContextReply(userMessage, mentioned, quoteOf, newsOf) ==
      Some(if |mentioned| > 0 then RiskReport(mentioned[|mentioned| - 1]) else RiskPrompt)
  {
  }

  /** Without a risk keyword, a message containing "그" is a back reference to the latest stock. */
  lemma BackReferenceSecond(userMessage: string, mentioned: seq<string>, quoteOf: QuoteOracle, newsOf: NewsOracle)
    requires !IsRiskQuery(Lower(userMessage)) && Contains(Lower(userMessage), "그")
    ensures ContextReply(userMessage, mentioned, quoteOf, newsOf) ==
      Some(if |mentioned| == 0 then FollowUpPrompt
           else if Contains(Lower(userMessage), "전망") then OutlookReport(mentioned[|mentioned| - 1])
           else FollowUpReply(mentioned[|mentioned| - 1]))
  {
  }

  /** Without a risk keyword or "그", "비교" compares the two latest stocks. */
  lemma ComparisonThird(userMessage: string, mentioned: seq<string>, quoteOf: QuoteOracle, newsOf: NewsOracle)
    requires !IsRiskQuery(Lower(userMessage)) && !Contains(Lower(userMessage), "그")
    requires IsComparison(Lower(userMessage))
    ensures ContextReply(userMessage, mentioned, quoteOf, newsOf) ==
      Some(if |mentioned| >= 2 then ComparisonReport(mentioned[|mentioned| - 2], mentioned[|mentioned| - 1])
           else ComparisonPrompt)
  {
    BackReferenceIsShortCue(Lower(userMessage));
  }

  /**
   * The context-aware reply is missing exactly when the message has none of
   * the risk, "그" and "비교" cues, asks for an analysis, and names no alias.
   */
  lemma ContextReplyMissingExactly(userMessage: string, mentioned: seq<string>, quoteOf: QuoteOracle, newsOf: NewsOracle)
    ensures var lower := Lower(userMessage);
      ContextReply(userMessage, mentioned, quoteOf, newsOf).None? <==>
        && !IsRiskQuery(lower) && !Contains(lower, "그") && !IsComparison(lower)
        && IsAnalysisRequest(lower)
        && forall a | 0 <= a < |Aliases| :: !HasAlias(lower, a)
  {
    BackReferenceIsShortCue(Lower(userMessage));
    OriginalReplyMissing(userMessage, quoteOf, newsOf);
  }

  /**
   * The stock a risk reply is about was named by one of the latest
   * `ResolverWindow` user messages recorded before the current one.
   */
  lemma RiskReplyNamesRecordedStock(h: seq<Turn>, userMessage: string, quoteOf: QuoteOracle, newsOf: NewsOracle)
    requires IsRiskQuery(Lower(userMessage)) && LastMentioned(h) != []
    ensures exists ticker ::
      && ContextReply(userMessage, LastMentioned(h), quoteOf, newsOf) == Some(RiskReport(ticker))
      && exists i | 0 <= i < |Tail(h, ResolverWindow)| :: Names(Tail(h, ResolverWindow)[i].user, ticker)
  {
    var m := LastMentioned(h);
    var ticker := m[|m| - 1];
    RiskQueryFirst(userMessage, m, quoteOf, newsOf);
    LastMentionedSound(h, ticker);
  }

  /**
   * The current message does not count as a mention for its own reply: on a
   * session with no history, a risk question gets the prompt to name a stock
   * whatever stocks the question itself names.
   */
  lemma CurrentMentionIgnored(conversations: Conversations, sessionId: string, userMessage: string,
                              quoteOf: QuoteOracle, newsOf: NewsOracle)
    requires sessionId !in conversations
    requires IsRiskQuery(Lower(userMessage))
    ensures ContextReply(userMessage, MentionedIn(conversations, sessionId), quoteOf, newsOf) == Some(RiskPrompt)
  {
  }

  /**
   * A follow-up resolves to the stock of the turn before: after a first
   * message that names exactly one ticker, a risk question in the same
   * session is answered with the risk report on that ticker.
   */
  lemma RiskFollowUpNamesFirstTurnStock(timestamp: string, first: string, firstReply: Option<string>, second: string,
                                        ticker: string, quoteOf: QuoteOracle, newsOf: NewsOracle)
    requires forall x :: Names(first, x) <==> x == ticker
    requires IsRiskQuery(Lower(second))
    ensures ContextReply(second, LastMentioned(RecordTurn([], timestamp, first, firstReply)), quoteOf, newsOf)
            == Some(RiskReport(ticker))
  {
    var h := RecordTurn([], timestamp, first, firstReply);
    RecordTurnOnNewSession(timestamp, first, firstReply);
    var window := Tail(h, ResolverWindow);
    assert window == h;
    var all := Mentions(window);
    forall x
      ensures x in all <==> x == ticker
    {
      MentionsExactly(window, x);
      assert (exists i | 0 <= i < |window| :: Names(window[i].user, x)) <==> Names(first, x);
    }
    assert ticker in all;
    DedupOfCopies(all, ticker);
    assert LastMentioned(h) == [ticker];
    RiskQueryFirst(second, [ticker], quoteOf, newsOf);
  }

  // ---------------------------------------------------------------------------
  // The bot

  class PortfolioChatBot {
    const quoteOf: QuoteOracle
    const newsOf: NewsOracle
    const conversationManager: ConversationManager

    constructor (quoteOf: QuoteOracle, newsOf: NewsOracle)
      ensures this.quoteOf == quoteOf && this.newsOf == newsOf
      ensures fresh(conversationManager)
      ensures conversationManager.Valid() && conversationManager.conversations == map[]
    {
      this.quoteOf := quoteOf;
      this.newsOf := newsOf;
      conversationManager := new ConversationManager();
    }

    /** The reply without context; it scans the aliases and returns at the first that occurs. */
    method ChatOriginal(userMessage: string) returns (reply: Option<string>)
      ensures reply == OriginalReply(userMessage, quoteOf, newsOf)
    {
      var userMessageLower := Lower(userMessage);
      if Contains(userMessageLower, "분석") || Contains(userMessageLower, "어때") {
        var tickers := Aliases;
        var i := 0;
        while i < |tickers|
          invariant 0 <= i <= |tickers|
          invariant FirstAlias(userMessageLower) == FirstAliasFrom(userMessageLower, Aliases, AliasTicker, i)
        {
          var ticker := tickers[i];
          if Contains(userMessageLower, Lower(ticker)) {
            AliasListed(i);
            assert FirstAlias(userMessageLower) == AliasTicker(ticker);
            if ticker in ["애플", "AAPL"] {
              return Some(StockAnalysis("AAPL", quoteOf, newsOf));
            } else if ticker in ["테슬라", "TSLA"] {
              return Some(StockAnalysis("TSLA", quoteOf, newsOf));
            } else if ticker in ["삼성", "005930"] {
              return Some(StockAnalysis("005930.KS", quoteOf, newsOf));
            }
          } else {
            assert FirstAliasFrom(userMessageLower, Aliases, AliasTicker, i)
              == FirstAliasFrom(userMessageLower, Aliases, AliasTicker, i + 1);
          }
          i := i + 1;
        }
        return None;
      } else if Contains(userMessageLower, "안녕") || Contains(userMessageLower, "hello") {
        return Some(GreetingReply);
      } else if Contains(userMessageLower, "포트폴리오") {
        return Some(PortfolioReply);
      } else {
        return Some(DefaultReply);
      }
    }

    /**
     * Answers `userMessage` in session `sessionId`, using the stocks the
     * session mentioned before this message, and records the exchange.
     * The clock reading for the new entry is the parameter `timestamp`.
     */
    method ChatWithContext(userMessage: string, sessionId: string, timestamp: string) returns (response: Option<string>)
      requires conversationManager.Valid()
      modifies conversationManager
      ensures conversationManager.Valid()
      ensures response == ContextReply(userMessage, old(MentionedIn(conversationManager.conversations, sessionId)), quoteOf, newsOf)
      ensures conversationManager.conversations ==
        old(conversationManager.conversations)[sessionId :=
          RecordTurn(History(old(conversationManager.conversations), sessionId), timestamp, userMessage, response)]
    {
      var userMessageLower := Lower(userMessage);
      // The context text is fetched but, as in the source, not used.
      var context := conversationManager.GetContext(sessionId, 2);
      var lastMentionedStocks := conversationManager.GetLastMentionedStocks(sessionId);
      var text := "";
      if Contains(userMessageLower, "리스크") || Contains(userMessageLower, "위험") {
        if |lastMentionedStocks| > 0 {
          var ticker := lastMentionedStocks[|lastMentionedStocks| - 1];
          text := "🚨 " + ticker + " 투자 리스크:\n";
          text := text + "• 시장 변동성에 민감\n";
          text := text + "• 기술주 특성상 높은 변동폭\n";
          text := text + "• 금리 인상 시 주가 하락 가능성";
          assert text == RiskReport(ticker);
        } else {
          text := RiskPrompt;
        }
        response := Some(text);
        assert response == ContextReply(userMessage, lastMentionedStocks, quoteOf, newsOf);
      } else if Contains(userMessageLower, "그") || Contains(userMessageLower, "그거") || Contains(userMessageLower, "그런데") {
        if |lastMentionedStocks| > 0 {
          var ticker := lastMentionedStocks[|lastMentionedStocks| - 1];
          if Contains(userMessageLower, "전망") {
            text := "📈 " + ticker + " 전망:\n앞서 분석한 종목 기준으로, 장기적으로는 긍정적이지만 단기 변동성에 주의하세요.";
            assert text == OutlookReport(ticker);
          } else {
            text := "📊 앞서 말씀드린 " + ticker + "에 대한 추가 정보가 필요하시다면 구체적으로 물어보세요!";
            assert text == FollowUpReply(ticker);
          }
        } else {
          text := FollowUpPrompt;
        }
        response := Some(text);
        assert response == ContextReply(userMessage, lastMentionedStocks, quoteOf, newsOf);
      } else if Contains(userMessageLower, "비교") {
        if |lastMentionedStocks| >= 2 {
          text := "📊 " + lastMentionedStocks[|lastMentionedStocks| - 2] + " vs " + lastMentionedStocks[|lastMentionedStocks| - 1] + " 비교:\n";
          text := text + "두 종목 모두 기술주로서 비슷한 특성을 가지지만, 각각의 사업 영역이 다릅니다.";
          assert text == ComparisonReport(lastMentionedStocks[|lastMentionedStocks| - 2], lastMentionedStocks[|lastMentionedStocks| - 1]);
        } else {
          text := ComparisonPrompt;
        }
        response := Some(text);
        assert response == ContextReply(userMessage, lastMentionedStocks, quoteOf, newsOf);
      } else {
        response := ChatOriginal(userMessage);
      }
      assert response == ContextReply(userMessage, lastMentionedStocks, quoteOf, newsOf);
      conversationManager.AddMessage(sessionId, userMessage, response, timestamp);
    }
  }
}
