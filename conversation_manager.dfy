/**
 * The per-session conversation store (conversation_manager.py): a map from
 * session id to a bounded list of turns, the text of the latest turns, and
 * the resolver that finds which stocks a session mentioned last.
 */
module Conversation {
  import opened Wrappers
  import opened Text

  /** A session keeps at most this many turns. */
  const MaxTurns: nat := 10

  /** The resolver looks at this many of the latest user messages. */
  const ResolverWindow: nat := 3

  /** The resolver reports at most this many tickers. */
  const MaxMentioned: nat := 3

  /**
   * One exchange. `bot` is `None` where the bot produced no text (the
   * source then stores Python's `None`); `turn` is the stamp the entry got
   * when it was added.
   */
  datatype Turn = Turn(timestamp: string, user: string, bot: Option<string>, turn: nat)

  type Conversations = map<string, seq<Turn>>

  /** The history of a session; an unknown session has none. */
  function History(conversations: Conversations, sessionId: string): seq<Turn>
  {
    if sessionId in conversations then conversations[sessionId] else []
  }

  // ---------------------------------------------------------------------------
  // Recording a turn

  /** The entry added to history `h`: it is stamped with the length before the append, plus one. */
  function NewTurn(h: seq<Turn>, timestamp: string, user: string, bot: Option<string>): Turn
  {
    Turn(timestamp, user, bot, |h| + 1)
  }

  /** The history after adding one exchange: append, then keep only the latest `MaxTurns`. */
  function RecordTurn(h: seq<Turn>, timestamp: string, user: string, bot: Option<string>): seq<Turn>
  {
    var appended := h + [NewTurn(h, timestamp, user, bot)];
    if |appended| > MaxTurns then appended[|appended| - MaxTurns..] else appended
  }

  /**
   * The shape every stored history keeps: at most `MaxTurns` entries; the
   * entry at position i is stamped at least i + 1 and at most MaxTurns + 1;
   * stamps never decrease; and a history that has never been full is
   * stamped 1, 2, 3, ... exactly.
   */
  ghost predicate WellFormed(h: seq<Turn>)
  {
    && |h| <= MaxTurns
    && (forall i | 0 <= i < |h| :: i + 1 <= h[i].turn <= MaxTurns + 1)
    && (forall i, j | 0 <= i < j < |h| :: h[i].turn <= h[j].turn)
    && (|h| < MaxTurns ==> forall i | 0 <= i < |h| :: h[i].turn == i + 1)
  }

  /**
   * Recording keeps the latest entries of the old history followed by the
   * new exchange, in order: the result is the last min(|h| + 1, MaxTurns)
   * entries of `h + [new entry]`, and it ends with exactly the given texts.
   */
  lemma RecordTurnRetainsLatest(h: seq<Turn>, timestamp: string, user: string, bot: Option<string>)
    requires |h| <= MaxTurns
    ensures var r := RecordTurn(h, timestamp, user, bot);
      && |r| == (if |h| < MaxTurns then |h| + 1 else MaxTurns)
      && r == (h + [NewTurn(h, timestamp, user, bot)])[|h| + 1 - |r|..]
      && r[|r| - 1] == Turn(timestamp, user, bot, |h| + 1)
  {
  }

  /** The first message of a session gives a one-entry history stamped 1. */
  lemma RecordTurnOnNewSession(timestamp: string, user: string, bot: Option<string>)
    ensures RecordTurn([], timestamp, user, bot) == [Turn(timestamp, user, bot, 1)]
  {
  }

  /** Appending to a history that is not full stamps the new entry with the next position. */
  lemma AppendWellFormed(h: seq<Turn>, e: Turn)
    requires WellFormed(h) && |h| < MaxTurns && e.turn == |h| + 1
    ensures WellFormed(h + [e])
  {
    var g := h + [e];
    forall i | 0 <= i < |g|
      ensures g[i].turn == i + 1
    {
      if i < |h| {
        assert g[i] == h[i];
      }
    }
  }

  /** Dropping the oldest entry of a full history plus one keeps the stamps in order. */
  lemma ShiftWellFormed(h: seq<Turn>, e: Turn)
    requires WellFormed(h) && |h| == MaxTurns && e.turn == MaxTurns + 1
    ensures WellFormed((h + [e])[1..])
  {
    var g := h + [e];
    var r := g[1..];
    assert forall i | 0 <= i < |r| :: r[i] == g[i + 1];
    assert forall i | 0 <= i < |h| :: g[i] == h[i];
    forall i, j | 0 <= i < j < |r|
      ensures r[i].turn <= r[j].turn
    {
      if j + 1 < |g| - 1 {
        assert r[i] == h[i + 1] && r[j] == h[j + 1];
      }
    }
  }

  /** Recording keeps a history well formed and never leaves it empty. */
  lemma RecordTurnWellFormed(h: seq<Turn>, timestamp: string, user: string, bot: Option<string>)
    requires WellFormed(h)
    ensures RecordTurn(h, timestamp, user, bot) != []
    ensures WellFormed(RecordTurn(h, timestamp, user, bot))
  {
    var e := NewTurn(h, timestamp, user, bot);
    if |h| < MaxTurns {
      AppendWellFormed(h, e);
    } else {
      ShiftWellFormed(h, e);
    }
  }

  /**
   * Stamps stop rising: once a history is full, the entry added is stamped
   * MaxTurns + 1, the length stays MaxTurns, and two successive additions
   * leave two entries with the same stamp at the end.
   */
  lemma {:induction false} FullHistoryStampsPlateau(h: seq<Turn>, t1: string, u1: string, b1: Option<string>,
                                                     t2: string, u2: string, b2: Option<string>)
    requires WellFormed(h) && |h| == MaxTurns
    ensures var r1 := RecordTurn(h, t1, u1, b1);
      var r2 := RecordTurn(r1, t2, u2, b2);
      && |r1| == MaxTurns && r1[MaxTurns - 1].turn == MaxTurns + 1
      && |r2| == MaxTurns && r2[MaxTurns - 2].turn == r2[MaxTurns - 1].turn == MaxTurns + 1
  {
    var r1 := RecordTurn(h, t1, u1, b1);
    RecordTurnRetainsLatest(h, t1, u1, b1);
    RecordTurnRetainsLatest(r1, t2, u2, b2);
    var r2 := RecordTurn(r1, t2, u2, b2);
    assert r2[MaxTurns - 2] == r1[MaxTurns - 1];
  }

  // ---------------------------------------------------------------------------
  // Context text

  /** Python's f-string rendering of a stored bot response (`None` prints as "None"). */
  function Render(bot: Option<string>): string
  {
    match bot
    case Some(text) => text
    case None => "None"
  }

  function UserLine(t: Turn): string
  {
    "사용자: " + t.user
  }

  function BotLine(t: Turn): string
  {
    "봇: " + Render(t.bot)
  }

  /** The context lines of `turns`: for each turn in order, its user line then its bot line. */
  function ContextLines(turns: seq<Turn>): (lines: seq<string>)
    ensures |lines| == 2 * |turns|
  {
    if turns == [] then []
    else ContextLines(turns[..|turns| - 1]) + [UserLine(turns[|turns| - 1]), BotLine(turns[|turns| - 1])]
  }

  /** The context text of a session: "" when it is unknown, else the lines of its last `lastN` turns joined by newlines. */
  function ContextOf(conversations: Conversations, sessionId: string, lastN: int): string
  {
    if sessionId !in conversations then ""
    else Join(ContextLines(Tail(conversations[sessionId], lastN)), "\n")
  }

  /** Line 2i of the context is the user text of turn i and line 2i + 1 its bot text. */
  lemma {:induction false} ContextLinesInOrder(turns: seq<Turn>)
    ensures forall i | 0 <= i < |turns| ::
      ContextLines(turns)[2 * i] == UserLine(turns[i]) && ContextLines(turns)[2 * i + 1] == BotLine(turns[i])
  {
    if turns != [] {
      var front := turns[..|turns| - 1];
      ContextLinesInOrder(front);
      forall i | 0 <= i < |turns|
        ensures ContextLines(turns)[2 * i] == UserLine(turns[i]) && ContextLines(turns)[2 * i + 1] == BotLine(turns[i])
      {
        if i < |front| {
          assert turns[i] == front[i];
        }
      }
    }
  }

  /** Texts without newlines give context lines without newlines. */
  lemma LinesOfTurnAreSingle(t: Turn)
    requires '\n' !in t.user && '\n' !in Render(t.bot)
    ensures '\n' !in UserLine(t) && '\n' !in BotLine(t)
  {
    assert '\n' !in "사용자: " && '\n' !in "봇: ";
  }

  /** No context line holds a newline when no text of the turns does. */
  lemma {:induction false} ContextLinesAreSingle(turns: seq<Turn>)
    requires forall t | t in turns :: '\n' !in t.user && '\n' !in Render(t.bot)
    ensures forall k | 0 <= k < |ContextLines(turns)| :: '\n' !in ContextLines(turns)[k]
  {
    if turns != [] {
      var front := turns[..|turns| - 1];
      assert forall t | t in front :: t in turns;
      ContextLinesAreSingle(front);
      LinesOfTurnAreSingle(turns[|turns| - 1]);
    }
  }

  /**
   * When no text of the latest `lastN` turns holds a newline, splitting the
   * context of a known session at newlines gives back exactly two lines per
   * turn, min(lastN, history length) turns, user line first, oldest first.
   */
  lemma ContextSplitsIntoTurns(conversations: Conversations, sessionId: string, lastN: int)
    requires sessionId in conversations && conversations[sessionId] != [] && lastN >= 1
    requires forall t | t in Tail(conversations[sessionId], lastN) :: '\n' !in t.user && '\n' !in Render(t.bot)
    ensures var turns := Tail(conversations[sessionId], lastN);
      var lines := Split(ContextOf(conversations, sessionId, lastN), '\n');
      && |turns| == (if lastN <= |conversations[sessionId]| then lastN else |conversations[sessionId]|)
      && |lines| == 2 * |turns|
      && forall i | 0 <= i < |turns| :: lines[2 * i] == UserLine(turns[i]) && lines[2 * i + 1] == BotLine(turns[i])
  {
    var turns := Tail(conversations[sessionId], lastN);
    var lines := ContextLines(turns);
    ContextLinesInOrder(turns);
    ContextLinesAreSingle(turns);
    assert "\n" == ['\n'];
    SplitJoin(lines, '\n');
  }

  // ---------------------------------------------------------------------------
  // Stock resolver

  /** Keyword to ticker, in the order the resolver tries them. */
  const StockKeywords: seq<(string, string)> := [
    ("애플", "AAPL"), ("aapl", "AAPL"),
    ("테슬라", "TSLA"), ("tsla", "TSLA"),
    ("삼성", "005930.KS"), ("samsung", "005930.KS"),
    ("엔비디아", "NVDA"), ("nvidia", "NVDA")
  ]

  /** The tickers whose keyword occurs in `text`, one per matching keyword, in table order. */
  function Hits(text: string, table: seq<(string, string)>): seq<string>
  {
    if table == [] then []
    else
      var last := table[|table| - 1];
      Hits(text, table[..|table| - 1]) + (if Contains(text, last.0) then [last.1] else [])
  }

  /** The tickers matched in the lower-cased user texts of `turns`, oldest turn first, table order within a turn. */
  function Mentions(turns: seq<Turn>): seq<string>
  {
    if turns == [] then []
    else Mentions(turns[..|turns| - 1]) + Hits(Lower(turns[|turns| - 1].user), StockKeywords)
  }

  predicate NoDuplicates<T(==)>(s: seq<T>)
  {
    forall i, j | 0 <= i < j < |s| :: s[i] != s[j]
  }

  /** `s` without repetitions, each element kept where it first occurs. */
  function Dedup(s: seq<string>): (r: seq<string>)
    ensures NoDuplicates(r)
    ensures forall x :: x in r <==> x in s
  {
    if s == [] then []
    else
      var d := Dedup(s[..|s| - 1]);
      assert s == s[..|s| - 1] + [s[|s| - 1]];
      if s[|s| - 1] in d then d else d + [s[|s| - 1]]
  }

  /** Removing repetitions from a non-empty list of copies of `t` leaves `[t]`. */
  lemma {:induction false} DedupOfCopies(s: seq<string>, t: string)
    requires |s| > 0 && forall x | x in s :: x == t
    ensures Dedup(s) == [t]
  {
    var front := s[..|s| - 1];
    assert s[|s| - 1] in s;
    if front != [] {
      forall x | x in front
        ensures x == t
      {
        assert x in s;
      }
      DedupOfCopies(front, t);
    }
  }

  lemma DedupStep(s: seq<string>, x: string)
    ensures Dedup(s + [x]) == if x in Dedup(s) then Dedup(s) else Dedup(s) + [x]
  {
    assert (s + [x])[..|s|] == s;
  }

  lemma HitsStep(text: string, table: seq<(string, string)>, j: nat)
    requires j < |table|
    ensures Hits(text, table[..j + 1]) ==
      Hits(text, table[..j]) + (if Contains(text, table[j].0) then [table[j].1] else [])
  {
    assert table[..j + 1][..j] == table[..j];
  }

  /** One keyword of the resolver's inner loop keeps the running list equal to the deduplicated mentions. */
  lemma KeywordStep(before: seq<string>, text: string, table: seq<(string, string)>, j: nat, found: seq<string>)
    requires j < |table|
    requires found == Dedup(before + Hits(text, table[..j]))
    ensures (if Contains(text, table[j].0) && table[j].1 !in found then found + [table[j].1] else found)
            == Dedup(before + Hits(text, table[..j + 1]))
  {
    var (keyword, ticker) := table[j];
    var hits := Hits(text, table[..j]);
    var seen := before + hits;
    HitsStep(text, table, j);
    DedupStep(seen, ticker);
    if Contains(text, keyword) {
      assert Hits(text, table[..j + 1]) == hits + [ticker];
      assert before + (hits + [ticker]) == seen + [ticker];
    } else {
      assert Hits(text, table[..j + 1]) == hits;
    }
  }

  lemma MentionsStep(turns: seq<Turn>, i: nat)
    requires i < |turns|
    ensures Mentions(turns[..i + 1]) == Mentions(turns[..i]) + Hits(Lower(turns[i].user), StockKeywords)
  {
    assert turns[..i + 1][..i] == turns[..i];
  }

  /** The position of the first occurrence of `x` in `s`. */
  function IndexOf<T(==)>(s: seq<T>, x: T): (i: nat)
    requires x in s
    ensures i < |s| && s[i] == x && x !in s[..i]
  {
    if s[0] == x then 0
    else
      var i := 1 + IndexOf(s[1..], x);
      assert s[..i] == [s[0]] + s[1..][..i - 1];
      i
  }

  lemma {:induction false} IndexOfExtended<T>(s: seq<T>, y: T, x: T)
    requires x in s
    ensures IndexOf(s + [y], x) == IndexOf(s, x)
  {
    if s[0] != x {
      assert (s + [y])[1..] == s[1..] + [y];
      IndexOfExtended(s[1..], y, x);
    }
  }

  lemma {:induction false} IndexOfNew<T>(s: seq<T>, x: T)
    requires x !in s
    ensures IndexOf(s + [x], x) == |s|
  {
    if s != [] {
      assert (s + [x])[1..] == s[1..] + [x];
      IndexOfNew(s[1..], x);
    }
  }

  /** Dedup keeps first-seen order: an earlier element was first seen earlier in `s`. */
  lemma {:induction false} DedupFirstSeenOrder(s: seq<string>)
    ensures forall i, j | 0 <= i < j < |Dedup(s)| :: IndexOf(s, Dedup(s)[i]) < IndexOf(s, Dedup(s)[j])
  {
    if s != [] {
      var front, x := s[..|s| - 1], s[|s| - 1];
      assert s == front + [x];
      var d' := Dedup(front);
      var d := Dedup(s);
      DedupFirstSeenOrder(front);
      forall y | y in front
        ensures IndexOf(s, y) == IndexOf(front, y)
      {
        IndexOfExtended(front, x, y);
      }
      forall i, j | 0 <= i < j < |d|
        ensures IndexOf(s, d[i]) < IndexOf(s, d[j])
      {
        assert d[i] in d' && d[i] in front;
        if j < |d'| {
          assert d[j] in front;
        } else {
          assert d[j] == x && x !in front;
          IndexOfNew(front, x);
        }
      }
    }
  }

  /** A ticker is among the hits exactly when one of its keywords occurs in the text. */
  lemma {:induction false} HitsExactly(text: string, table: seq<(string, string)>, x: string)
    ensures x in Hits(text, table) <==> exists k | 0 <= k < |table| :: table[k].1 == x && Contains(text, table[k].0)
  {
    if table != [] {
      var front := table[..|table| - 1];
      HitsExactly(text, front, x);
      if x in Hits(text, table) && x !in Hits(text, front) {
        var k := |table| - 1;
        assert table[k].1 == x && Contains(text, table[k].0);
      }
      if exists k | 0 <= k < |table| :: table[k].1 == x && Contains(text, table[k].0) {
        var k :| 0 <= k < |table| && table[k].1 == x && Contains(text, table[k].0);
        if k < |front| {
          assert front[k] == table[k];
        }
      }
    }
  }

  /** `message` names `ticker`: one of the ticker's keywords occurs in the lower-cased message. */
  predicate Names(message: string, ticker: string)
  {
    exists k | 0 <= k < |StockKeywords| :: StockKeywords[k].1 == ticker && Contains(Lower(message), StockKeywords[k].0)
  }

  /** A ticker is matched in `turns` exactly when some user text of them names it. */
  lemma {:induction false} MentionsExactly(turns: seq<Turn>, x: string)
    ensures x in Mentions(turns) <==> exists i | 0 <= i < |turns| :: Names(turns[i].user, x)
  {
    if turns != [] {
      var n := |turns| - 1;
      var front := turns[..n];
      var text := Lower(turns[n].user);
      assert turns == front + [turns[n]];
      assert Mentions(turns) == Mentions(front) + Hits(text, StockKeywords);
      MentionsExactly(front, x);
      HitsExactly(text, StockKeywords, x);
      assert x in Hits(text, StockKeywords) <==> Names(turns[n].user, x);
      forall i | 0 <= i < n
        ensures front[i] == turns[i]
      {
      }
    }
  }

  /** The stocks the latest `ResolverWindow` user messages of `h` mention, at most `MaxMentioned`. */
  function LastMentioned(h: seq<Turn>): (r: seq<string>)
    ensures |r| <= MaxMentioned && NoDuplicates(r)
  {
    Take(Dedup(Mentions(Tail(h, ResolverWindow))), MaxMentioned)
  }

  /** What the resolver reports for a session: nothing for an unknown one. */
  function MentionedIn(conversations: Conversations, sessionId: string): seq<string>
  {
    if sessionId !in conversations then [] else LastMentioned(conversations[sessionId])
  }

  /** A reported ticker is named by one of the latest `ResolverWindow` user messages. */
  lemma LastMentionedSound(h: seq<Turn>, x: string)
    requires x in LastMentioned(h)
    ensures exists i | 0 <= i < |Tail(h, ResolverWindow)| :: Names(Tail(h, ResolverWindow)[i].user, x)
  {
    var window := Tail(h, ResolverWindow);
    assert x in Dedup(Mentions(window));
    MentionsExactly(window, x);
  }

  /**
   * Every reported ticker is named by one of the latest `ResolverWindow`
   * user messages; when fewer than `MaxMentioned` are reported, every ticker
   * those messages name is reported; and the report lists tickers in the
   * order they are first met, scanning messages oldest first and keywords in
   * table order.
   */
  lemma LastMentionedExactly(h: seq<Turn>)
    ensures var window := Tail(h, ResolverWindow);
      var r := LastMentioned(h);
      && |window| == (if |h| < ResolverWindow then |h| else ResolverWindow)
      && window == h[|h| - |window|..]
      && (forall x | x in r :: exists i | 0 <= i < |window| :: Names(window[i].user, x))
      && (|r| < MaxMentioned ==> forall x, i | 0 <= i < |window| && Names(window[i].user, x) :: x in r)
      && r <= Dedup(Mentions(window))
      && (forall i, j | 0 <= i < j < |r| ::
            IndexOf(Mentions(window), r[i]) < IndexOf(Mentions(window), r[j]))
  {
    var window := Tail(h, ResolverWindow);
    var all := Mentions(window);
    var d := Dedup(all);
    var r := LastMentioned(h);
    DedupFirstSeenOrder(all);
    forall x | x in r
      ensures exists i | 0 <= i < |window| :: Names(window[i].user, x)
    {
      LastMentionedSound(h, x);
    }
    if |r| < MaxMentioned {
      assert r == d;
      forall x, i | 0 <= i < |window| && Names(window[i].user, x)
        ensures x in r
      {
        MentionsExactly(window, x);
      }
    }
    forall i, j | 0 <= i < j < |r|
      ensures IndexOf(all, r[i]) < IndexOf(all, r[j])
    {
      assert r[i] == d[i] && r[j] == d[j];
    }
  }

  /** The resolver reports only tickers of the keyword table. */
  lemma LastMentionedKnownTickers(h: seq<Turn>)
    ensures forall x | x in LastMentioned(h) :: x in {"AAPL", "TSLA", "005930.KS", "NVDA"}
  {
    LastMentionedExactly(h);
  }

  // ---------------------------------------------------------------------------
  // The store

  /** Every stored session has a non-empty, well-formed history. */
  ghost predicate AllWellFormed(conversations: Conversations)
  {
    forall sessionId | sessionId in conversations ::
      conversations[sessionId] != [] && WellFormed(conversations[sessionId])
  }

  /** Recording a turn in one session keeps every stored history non-empty and well formed. */
  lemma StoreKeepsWellFormed(conversations: Conversations, sessionId: string, timestamp: string, user: string, bot: Option<string>)
    requires AllWellFormed(conversations)
    ensures AllWellFormed(conversations[sessionId := RecordTurn(History(conversations, sessionId), timestamp, user, bot)])
  {
    var h := History(conversations, sessionId);
    if sessionId in conversations {
      assert WellFormed(h);
    } else {
      assert WellFormed(h);
    }
    RecordTurnWellFormed(h, timestamp, user, bot);
  }

  class ConversationManager {
    var conversations: Conversations

    /** Every stored session has a non-empty, well-formed history. */
    ghost predicate Valid()
      reads this
    {
      AllWellFormed(conversations)
    }

    constructor ()
      ensures Valid() && conversations == map[]
    {
      conversations := map[];
    }

    /** Records one exchange in a session, creating the session when it is new. */
    method AddMessage(sessionId: string, userMessage: string, botResponse: Option<string>, timestamp: string)
      requires Valid()
      modifies this
      ensures Valid()
      ensures conversations ==
        old(conversations)[sessionId := RecordTurn(History(old(conversations), sessionId), timestamp, userMessage, botResponse)]
      ensures forall other | other != sessionId ::
        (other in conversations <==> other in old(conversations))
        && (other in conversations ==> conversations[other] == old(conversations)[other])
    {
      ghost var before := conversations;
      ghost var recorded := RecordTurn(History(before, sessionId), timestamp, userMessage, botResponse);
      StoreKeepsWellFormed(before, sessionId, timestamp, userMessage, botResponse);
      if sessionId !in conversations {
        conversations := conversations[sessionId := []];
      }
      var history := conversations[sessionId];
      assert history == History(before, sessionId);
      conversations := conversations[sessionId := history + [Turn(timestamp, userMessage, botResponse, |history| + 1)]];
      if |conversations[sessionId]| > MaxTurns {
        var latest := conversations[sessionId];
        conversations := conversations[sessionId := latest[|latest| - MaxTurns..]];
      }
      assert conversations[sessionId] == recorded;
      assert conversations == before[sessionId := recorded];
    }

    /** The context text of the latest `lastN` turns of a session. */
    method GetContext(sessionId: string, lastN: int) returns (context: string)
      ensures context == ContextOf(conversations, sessionId, lastN)
    {
      if sessionId !in conversations {
        return "";
      }
      var recentMessages := Tail(conversations[sessionId], lastN);
      var lines: seq<string> := [];
      var i := 0;
      while i < |recentMessages|
        invariant 0 <= i <= |recentMessages|
        invariant lines == ContextLines(recentMessages[..i])
      {
        var msg := recentMessages[i];
        lines := lines + ["사용자: " + msg.user];
        lines := lines + ["봇: " + Render(msg.bot)];
        assert recentMessages[..i + 1][..i] == recentMessages[..i];
        i := i + 1;
      }
      assert recentMessages[..i] == recentMessages;
      context := Join(lines, "\n");
    }

    /** The stocks a session mentioned last. */
    method GetLastMentionedStocks(sessionId: string) returns (stocks: seq<string>)
      ensures stocks == MentionedIn(conversations, sessionId)
      ensures |stocks| <= MaxMentioned && NoDuplicates(stocks)
    {
      if sessionId !in conversations {
        return [];
      }
      var mentionedStocks: seq<string> := [];
      var recentMessages := Tail(conversations[sessionId], ResolverWindow);
      var i := 0;
      while i < |recentMessages|
        invariant 0 <= i <= |recentMessages|
        invariant mentionedStocks == Dedup(Mentions(recentMessages[..i]))
      {
        var userMsg := Lower(recentMessages[i].user);
        ghost var before := Mentions(recentMessages[..i]);
        var j := 0;
        assert before + Hits(userMsg, StockKeywords[..0]) == before;
        while j < |StockKeywords|
          invariant 0 <= j <= |StockKeywords|
          invariant mentionedStocks == Dedup(before + Hits(userMsg, StockKeywords[..j]))
        {
          var (keyword, ticker) := StockKeywords[j];
          KeywordStep(before, userMsg, StockKeywords, j, mentionedStocks);
          if Contains(userMsg, keyword) && ticker !in mentionedStocks {
            mentionedStocks := mentionedStocks + [ticker];
          }
          j := j + 1;
        }
        assert StockKeywords[..j] == StockKeywords;
        MentionsStep(recentMessages, i);
        i := i + 1;
      }
      assert recentMessages[..i] == recentMessages;
      stocks := Take(mentionedStocks, MaxMentioned);
    }

    /** Two lookups with no recording in between report the same stocks. */
    method LookUpTwice(sessionId: string) returns (first: seq<string>, second: seq<string>)
      ensures first == second
    {
      first := GetLastMentionedStocks(sessionId);
      second := GetLastMentionedStocks(sessionId);
    }
  }
}
