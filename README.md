# Portfolio chat bot: conversation store and reply dispatch

This project models the conversational core of a Korean-language stock chat
bot and proves properties of it in Dafny.

- **Conversation store** (`conversation_manager.py`, module `Conversation`).
  - The class `ConversationManager` keeps a map from session id to that
    session's turns and updates it in place. Each turn holds a timestamp, the
    user text, the bot text and a turn stamp.
  - `AddMessage` appends a turn and keeps only the latest 10.
  - `GetContext` renders the latest `lastN` turns as "사용자: …" / "봇: …" lines
    joined by newlines.
  - `GetLastMentionedStocks` finds the tickers named in the latest 3 user
    messages. It scans an ordered keyword→ticker table over the lower-cased
    text, drops repeats in first-seen order and keeps at most 3.
- **Reply dispatch** (`chat_engine.py`, module `ChatEngine`).
  - The class `PortfolioChatBot` holds the two market-data lookups and a
    conversation store.
  - `ChatWithContext` is a first-match-wins decision list: risk question, then
    back reference ("그"), then comparison ("비교"), then the reply without
    context. It reads the mentioned stocks before recording the exchange, then
    always records it.
  - `ChatOriginal` is the reply without context: analysis request with an
    alias, then greeting, portfolio, default. An analysis request naming no
    alias yields `None`, and that `None` is what gets recorded.
  - `StockAnalysis` is the report built from the quote and news lookups.
- **Supporting modules.**
  - `Text` holds the Python string operations the code relies on: substring
    test, ASCII `lower`, `strip`, `join`, negative-index slices, and `str(n)`.
    It also defines a newline `Split`. The code never splits; `Split` is there
    only to state that the joined context can be taken apart into its lines
    again (`ContextSplitsIntoTurns`).
  - `MarketData` holds the two lookups' result types. The lookups themselves
    are parameters (oracles).
  - `Wrappers` holds `Option`.

The specification functions are `RecordTurn`, `ContextOf`, `LastMentioned`,
`StockAnalysis`, `OriginalReply` and `ContextReply`. Each method's contract ties
it to one of them. The lemmas state what the source promises about these
functions.

A new entry is stamped with the stored length plus one, computed before the
append. The history is then cut to the last 10. So once a session is full,
every further entry is stamped 11 (`FullHistoryStampsPlateau`).

## Model

| member | source | states |
|---|---|---|
| Conversation.ConversationManager.constructor | conversation_manager.py:5-7 | A new store holds no sessions and is valid. |
| Conversation.ConversationManager.AddMessage | conversation_manager.py:9-23 | The session's history becomes `RecordTurn` of its old history (empty for a new session). Every other session keeps its presence and history. Every history stays non-empty and well formed. |
| Conversation.RecordTurnRetainsLatest | conversation_manager.py:14-23 | The new history is the last min(old length + 1, 10) entries of old history ++ [new entry], in order. Its last entry carries exactly the given timestamp, user and bot texts and the stamp old length + 1. |
| Conversation.RecordTurnOnNewSession | conversation_manager.py:11-19 | The first message of a session gives a one-entry history stamped 1. |
| Conversation.RecordTurnWellFormed | conversation_manager.py:14-23 | Recording keeps a history non-empty and well formed: at most 10 entries, entry i stamped between i + 1 and 11, stamps non-decreasing, and stamped 1, 2, 3, … until the history first fills. |
| Conversation.AppendWellFormed | conversation_manager.py:14-19 | Appending to a history of fewer than 10 entries, stamped with the next position, keeps it stamped 1, 2, 3, …. |
| Conversation.ShiftWellFormed | conversation_manager.py:21-23 | Appending an entry stamped 11 to a full history and dropping the oldest keeps the stamps within bounds and non-decreasing. |
| Conversation.StoreKeepsWellFormed | conversation_manager.py:9-23 | Recording one turn in one session keeps every stored history non-empty and well formed. |
| Conversation.FullHistoryStampsPlateau | conversation_manager.py:18-23 | On a full history the new entry is stamped 11 and the length stays 10. Two successive additions leave two final entries both stamped 11. |
| Conversation.ContextLines | conversation_manager.py:31-35 | There are two context lines per turn. |
| Conversation.ContextLinesInOrder | conversation_manager.py:33-35 | Line 2i is "사용자: " + user text of turn i, and line 2i + 1 is "봇: " + its rendered bot text. |
| Conversation.ContextLinesAreSingle | conversation_manager.py:33-35 | No context line holds a newline when no user or bot text does. |
| Conversation.ContextSplitsIntoTurns | conversation_manager.py:25-37 | For a known session with newline-free texts and lastN ≥ 1, splitting the context at newlines gives back exactly the user line then the bot line of each of the last min(lastN, length) turns, oldest first. |
| Conversation.ConversationManager.GetContext | conversation_manager.py:25-37 | The result is `ContextOf`: "" for an unknown session, otherwise the lines of the Python slice `[-lastN:]` of the history joined by "\n". It changes nothing. |
| Conversation.Dedup | conversation_manager.py:61-62 | The result has no duplicates and holds exactly the elements of its input. |
| Conversation.DedupOfCopies | conversation_manager.py:61-62 | Deduplicating copies of one ticker leaves just that ticker. |
| Conversation.DedupStep | conversation_manager.py:61-62 | Extending the input by x extends the deduplicated list by x exactly when x is not already in it. |
| Conversation.KeywordStep | conversation_manager.py:60-62 | One keyword of the inner loop appends its ticker exactly when the keyword occurs and the ticker is new, which keeps the running list equal to the deduplicated matches. |
| Conversation.HitsExactly | conversation_manager.py:60-61 | A ticker is matched in a text exactly when one of its keywords in the table occurs in the text. |
| Conversation.MentionsExactly | conversation_manager.py:57-61 | A ticker is matched over a list of turns exactly when some turn's lower-cased user text holds one of its keywords. |
| Conversation.DedupFirstSeenOrder | conversation_manager.py:58-62 | Deduplication keeps first-seen order: earlier results first occur earlier in the input. |
| Conversation.LastMentioned | conversation_manager.py:56-64 | The resolver result has at most 3 entries and no duplicates. |
| Conversation.LastMentionedSound | conversation_manager.py:57-62 | Every reported ticker is named by one of the latest 3 user messages. |
| Conversation.LastMentionedExactly | conversation_manager.py:44-64 | The window is the last min(3, length) turns. Every reported ticker is named in that window. When fewer than 3 are reported, every ticker named in the window is reported. The result is a prefix of the deduplicated matches, in first-seen order (messages oldest first, keywords in table order). |
| Conversation.LastMentionedKnownTickers | conversation_manager.py:45-54 | Only AAPL, TSLA, 005930.KS and NVDA are ever reported. |
| Conversation.ConversationManager.GetLastMentionedStocks | conversation_manager.py:39-64 | The result is `LastMentioned` of the session's history ([] for an unknown session), with no duplicates and at most 3 entries. It changes nothing. |
| Conversation.ConversationManager.LookUpTwice | conversation_manager.py:39-64 | Two resolver calls with no recording in between give the same list. |
| Text.Tail | conversation_manager.py:30 | Python's `s[-n:]`: a suffix of `s`, with min(n, length) elements for n ≥ 1 and the whole of `s` for n = 0. |
| Text.Take | conversation_manager.py:64 | Python's `s[:n]`: a prefix of `s` with min(n, length) elements for n ≥ 0. |
| Text.SplitJoin | conversation_manager.py:37 | Splitting a newline join recovers the parts when no part holds a newline. |
| Text.Lower | conversation_manager.py:59 | Lowering keeps the length. |
| Text.LowerAt | conversation_manager.py:59 | Lowering works character by character. |
| Text.ContainsPrefixOf | chat_engine.py:71 | Whatever contains a + b contains a. |
| Text.ContainsInfix | chat_engine.py:40-43 | A concatenation contains its middle part. |
| Text.Strip | chat_engine.py:48 | Python's `strip()`: the result neither starts nor ends with white space. |
| Text.StripIsSlice | chat_engine.py:48 | `strip()` removes only white space, and only at the two ends: its result is a slice of the input with nothing but white space before and after it. |
| Text.StripStartDropsSpaces | chat_engine.py:48 | Only leading white space is cut off: what is left is a suffix of the input. |
| Text.StripEndDropsSpaces | chat_engine.py:48 | Only trailing white space is cut off. |
| Text.StripUnchanged | chat_engine.py:48 | `strip()` leaves a string alone when both its ends are visible characters. |
| Text.NatToString | chat_engine.py:43 | Python's `str(n)`: a non-empty string of decimal digits with no leading zero ("0" only for 0). |
| Text.NatToStringRoundTrip | chat_engine.py:43 | Reading the digits of `str(n)` back gives n. |
| ChatEngine.ReportOpening | chat_engine.py:40 | The report starts with "📊 " + company name + " 분석:\n". |
| ChatEngine.ReportEnding | chat_engine.py:43-46 | With news, the report ends with the cut headline line. Without news, it ends with the count line. It ends with "..." exactly when there is news. |
| ChatEngine.ReportCount | chat_engine.py:43 | The report contains the line "📰 최근 뉴스: " + len(news) + "건". |
| ChatEngine.ReportIsStripped | chat_engine.py:48 | The final `strip()` changes nothing, because the report starts with an emoji and ends with '.' or '건'. |
| ChatEngine.StockAnalysis | chat_engine.py:32-48 | A failed quote lookup gives the failure text "❌ 주식 정보를 가져올 수 없습니다". A successful one gives the report on the quote and the news of that ticker, and the final strip leaves it unchanged. |
| ChatEngine.StockAnalysisShape | chat_engine.py:40-48 | A successful analysis opens with the company name and carries the news count. It ends with the first headline cut to 50 characters plus "..." exactly when there is news, and with the count line otherwise. |
| ChatEngine.UnavailableIsNotAReport | chat_engine.py:34-36 | The analysis is the failure text exactly when the quote lookup fails. |
| ChatEngine.AliasListed | chat_engine.py:102-110 | Every alias falls in one of the three groups the dispatch tests. |
| ChatEngine.AliasesAllMapped | chat_engine.py:102-110 | Every alias maps to a ticker. |
| ChatEngine.FirstAliasFromNoneSound | chat_engine.py:103-110 | A scan that finds nothing passed no occurring alias. |
| ChatEngine.FirstAliasFromNoneComplete | chat_engine.py:103-110 | A scan over aliases none of which occurs finds nothing. |
| ChatEngine.FirstAliasFromFound | chat_engine.py:103-110 | What a scan finds is the ticker of the first occurring alias from its start position on. |
| ChatEngine.FirstAliasMissing | chat_engine.py:102-110 | The alias lookup fails exactly when none of the six aliases occurs in the lower-cased message. |
| ChatEngine.FirstAliasFound | chat_engine.py:102-110 | A successful lookup gives the ticker of the first alias, in the order 애플, AAPL, 테슬라, TSLA, 삼성, 005930, that occurs. |
| ChatEngine.FirstAliasExactly | chat_engine.py:102-110 | Both of the above. |
| ChatEngine.OriginalReplyNone | chat_engine.py:99-119 | The reply without context is `None` exactly when an analysis request finds no alias. |
| ChatEngine.OriginalReplyMissing | chat_engine.py:99-119 | The reply without context is `None` exactly when the message holds "분석" or "어때" and names none of the six aliases. Greeting, portfolio and default are then not tried. |
| ChatEngine.OriginalReplyAnalysis | chat_engine.py:101-110 | An answered analysis request gets the stock analysis of the ticker of the first alias named (애플/AAPL → AAPL, 테슬라/TSLA → TSLA, 삼성/005930 → 005930.KS). |
| ChatEngine.BackReferenceIsShortCue | chat_engine.py:71 | The "그거" and "그런데" tests add nothing to the "그" test. |
| ChatEngine.RiskQueryFirst | chat_engine.py:61-69 | A message with "리스크" or "위험" always takes the risk branch, whatever else it holds. It gets the risk report on the last mentioned stock, or the prompt to name a stock when none is mentioned. |
| ChatEngine.BackReferenceSecond | chat_engine.py:71-79 | Otherwise, a message with "그" gets the prompt when nothing is mentioned. Else it gets the outlook text on the last stock if it holds "전망", and the follow-up text on it if not. |
| ChatEngine.ComparisonThird | chat_engine.py:81-86 | Otherwise, "비교" compares the second-to-last and the last mentioned stocks, or gives the prompt when fewer than two are mentioned. |
| ChatEngine.ContextReplyMissingExactly | chat_engine.py:50-111 | The context-aware reply is `None` exactly when the message has no risk, "그" or "비교" cue, asks for an analysis, and names no alias. |
| ChatEngine.RiskReplyNamesRecordedStock | chat_engine.py:56-67 | A risk report is always about a stock named in one of the latest 3 recorded user messages. |
| ChatEngine.CurrentMentionIgnored | chat_engine.py:56-69 | On a new session, a risk question gets the prompt to name a stock, whatever stocks it names itself. The current message is not yet recorded when the mentions are read. |
| ChatEngine.RiskFollowUpNamesFirstTurnStock | chat_engine.py:50-95 | After a first message naming exactly one ticker, a risk question in the same session gets the risk report on that ticker. |
| ChatEngine.PortfolioChatBot.constructor | chat_engine.py:29-30 | A new bot has the given lookups and an empty, valid store of its own. |
| ChatEngine.PortfolioChatBot.ChatOriginal | chat_engine.py:97-119 | The reply is `OriginalReply`. The alias loop returns at the first alias that occurs, and an analysis request with no alias falls off the end with `None`. |
| ChatEngine.PortfolioChatBot.ChatWithContext | chat_engine.py:50-95 | The reply is `ContextReply` on the stocks mentioned before this message. The session's history becomes `RecordTurn` of the old history with this message and this reply, `None` included. Every other session is untouched, and the store stays valid. |

## Left out

- The embedding model and vector store loading in `PortfolioChatBot.__init__`
  (chat_engine.py:11-27). They use external ML libraries and the filesystem,
  and the chat path never uses them. simple_embedding_hf.py is not part of this
  model for the same reason.
- The quote and news lookups (data_collector.py, news_collector.py) are not
  part of this model.
  - They call a remote market-data provider and swallow its failures.
  - Here they are oracles passed to the bot: a quote lookup giving
    `Option<Quote>`, and a news lookup giving at most 5 articles.
  - The news items' field defaulting is not modelled.
- The price's `:.2f` formatting is not modelled. The quote carries the price
  as an already-formatted string.
- `datetime.now().isoformat()` is not modelled. The timestamp of a new turn is
  a parameter of `AddMessage` and `ChatWithContext`.
- Text.Lower: lowers ASCII letters only, not Python's full Unicode `lower()`.
  The keywords, aliases and cues are Hangul, digits or ASCII, so matching on
  them is unaffected.
- Python's default arguments (`session_id="default"`, `last_n=3`) are not
  modelled. Callers pass both explicitly. `ChatWithContext` passes 2, as the
  source does, and discards the context text, as the source does.
- server.py (the HTTP transport) and the `__main__` demo blocks are not part of
  this model. They only print or forward.
- Concurrent access to the store is not modelled. The source has no locking,
  and the model treats each call as atomic.
- Aliasing between bots is not modelled: each bot owns a fresh store.
