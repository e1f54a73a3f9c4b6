/** The conversation memory and the rule-based reply engine of
    `backend/services/aiService.js`: a per-user history capped at ten turns,
    a first-match-wins keyword cascade, and a word-overlap score that detects
    a user repeating themselves. The clock (`new Date().toUTCString()`) and
    `Math.random()` are parameters: `utcNow` and `pick`. */
module AiService {
  import opened Wrappers
  import opened Strings

  const MaxHistoryLength: nat := 10

  datatype Role = UserRole | AssistantRole

  /** `{role, content}` */
  datatype Turn = Turn(role: Role, content: string)

  /** The turn `addToHistory` stores for `{sender, text}`: only the sender `'user'` is the user. */
  function TurnFor(sender: string, text: string): (t: Turn)
    ensures t.role == UserRole <==> sender == "user"
    ensures t.content == text
  {
    Turn(if sender == "user" then UserRole else AssistantRole, text)
  }

  /** The turn recorded for sender `"user"` has the user's role; for `"bot"`, the assistant's. */
  lemma UserAndBotTurns(text: string)
    ensures TurnFor("user", text) == Turn(UserRole, text) && TurnFor("bot", text) == Turn(AssistantRole, text)
  {
    assert "bot"[0] != "user"[0];
  }

  /** The most recent `MaxHistoryLength` entries of `s`. */
  function Window(s: seq<Turn>): seq<Turn>
  {
    if |s| <= MaxHistoryLength then s else s[|s| - MaxHistoryLength..]
  }

  /** One history update: `push`, then `shift` once if the length exceeds the cap. */
  function Push(history: seq<Turn>, t: Turn): (r: seq<Turn>)
    ensures |history| <= MaxHistoryLength ==> r == Window(history + [t])
    ensures |history| <= MaxHistoryLength ==> |r| <= MaxHistoryLength
  {
    var pushed := history + [t];
    if |pushed| > MaxHistoryLength then pushed[1..] else pushed
  }

  /** The history after recording `turns` one after another. */
  function PushAll(history: seq<Turn>, turns: seq<Turn>): seq<Turn>
    decreases |turns|
  {
    if |turns| == 0 then history
    else Push(PushAll(history, turns[..|turns| - 1]), turns[|turns| - 1])
  }

  lemma WindowOfWindow(s: seq<Turn>, t: Turn)
    ensures Window(Window(s) + [t]) == Window(s + [t])
  {
    if |s| > MaxHistoryLength {
      assert (Window(s) + [t])[1..] == (s + [t])[|s| + 1 - MaxHistoryLength..];
    }
  }

  /** Whatever is recorded, the history is the (at most) ten most recent turns,
      oldest first: FIFO eviction never loses a recent turn or reorders them. */
  lemma {:induction false} PushAllKeepsMostRecent(history: seq<Turn>, turns: seq<Turn>)
    requires |history| <= MaxHistoryLength
    ensures PushAll(history, turns) == Window(history + turns)
    ensures |PushAll(history, turns)| <= MaxHistoryLength
    decreases |turns|
  {
    if |turns| == 0 {
      assert history + turns == history;
    } else {
      var front, last := turns[..|turns| - 1], turns[|turns| - 1];
      PushAllKeepsMostRecent(history, front);
      WindowOfWindow(history + front, last);
      assert history + front + [last] == history + turns;
    }
  }

  /** Fifteen turns recorded into an empty history leave exactly the last ten. */
  lemma FifteenTurnsKeepLastTen(turns: seq<Turn>)
    requires |turns| == 15
    ensures PushAll([], turns) == turns[5..]
  {
    PushAllKeepsMostRecent([], turns);
    assert [] + turns == turns;
    assert Window(turns) == turns[|turns| - MaxHistoryLength..];
  }

  /** Recording two turns leaves them as the last two entries, in order. */
  lemma {:induction false} PushTwoEndsWith(history: seq<Turn>, first: Turn, second: Turn)
    requires |history| <= MaxHistoryLength
    ensures var r := Push(Push(history, first), second);
      |r| >= 2 && r[|r| - 2] == first && r[|r| - 1] == second
  {
    var once := Push(history, first);
    assert once[|once| - 1] == first;
    var twice := Push(once, second);
    assert twice == Window(once + [second]);
    assert |once + [second]| >= 2;
  }

  const GreetingReply := "Hello there! How can I assist you today?"
  const IdentityReply := "I'm an AI assistant designed to help with your questions and have conversations."
  const HelpReply := "I'd be happy to help! Could you provide more details about what you need assistance with?"
  const ThanksReply := "You're welcome! Is there anything else I can help you with?"
  const HowAreYouReply := "I'm functioning well, thank you for asking! How are you doing today?"
  const WeatherReply := "I don't have access to real-time weather data, but I'd recommend checking a weather service for the most accurate information."
  const QuestionReply := "That's an interesting question. Could you provide more details so I can give you a better answer?"
  const RepeatReply := "I notice you're asking about this again. Let me try to provide a clearer answer. "
    + "Could you specify what part of my previous response wasn't helpful?"

  /** The reply to a question about the time, embedding the current UTC date. */
  function TimeReply(utcNow: string): string
  {
    "I don't have access to your local time, but I can tell you it's currently " + utcNow + " in UTC."
  }

  const DefaultResponses: seq<string> := [
    "That's interesting! Could you tell me more about that?",
    "I understand. What would you like to know about this topic?",
    "Thanks for sharing. How can I help you with this?",
    "I see. Would you like me to provide more information on this subject?",
    "Interesting point! What are your thoughts on this matter?"
  ]

  /** One of the replies that do not depend on the clock. */
  predicate IsFixedReply(r: string)
  {
    || r == GreetingReply || r == IdentityReply || r == HelpReply || r == ThanksReply
    || r == HowAreYouReply || r == WeatherReply || r == QuestionReply || r == RepeatReply
    || r in DefaultResponses
  }

  // The rule predicates below take the already lower-cased message.

  /** `/^(hi|hello|hey|greetings).*\/i`: a bare prefix test, no word boundary. */
  predicate IsGreeting(message: string)
  {
    StartsWith(message, "hi") || StartsWith(message, "hello") || StartsWith(message, "hey")
    || StartsWith(message, "greetings")
  }

  predicate AsksIdentity(message: string)
  {
    Contains(message, "who are you") || Contains(message, "what are you")
  }

  predicate AsksHelp(message: string)
  {
    Contains(message, "help") || Contains(message, "assist")
  }

  predicate SaysThanks(message: string)
  {
    Contains(message, "thank you") || Contains(message, "thanks")
  }

  predicate IsQuestion(message: string)
  {
    Contains(message, "?")
  }

  /** Some keyword rule of the cascade fires before the history is consulted. */
  predicate KeywordRuleFires(message: string)
  {
    IsGreeting(message) || AsksIdentity(message) || AsksHelp(message) || SaysThanks(message)
    || IsQuestion(message)
  }

  /** The nested dispatch for a message containing `?`. */
  function AnswerQuestion(message: string, utcNow: string): (r: string)
    ensures IsFixedReply(r) || r == TimeReply(utcNow)
  {
    if Contains(message, "how are you") then HowAreYouReply
    else if Contains(message, "weather") then WeatherReply
    else if Contains(message, "time") then TimeReply(utcNow)
    else QuestionReply
  }

  function Max(a: int, b: int): int
  {
    if a < b then b else a
  }

  /** The distinct pieces of `s.split(/\s+/)`: never empty, since `split` returns at least one piece. */
  function WordSet(s: string): (w: set<string>)
    ensures |w| >= 1
  {
    var words := SplitSpaces(s);
    var w := set x | x in words;
    assert words[0] in w;
    assert w != {};
    w
  }

  lemma CommonAtMost(a: set<string>, b: set<string>)
    ensures |a * b| <= |a| && |a * b| <= |b|
  {
    assert a == (a - b) + (a * b) && (a - b) !! (a * b);
    assert b == (b - a) + (a * b) && (b - a) !! (a * b);
  }

  /** `stringSimilarity`: shared distinct words over the larger word-set size. */
  function Similarity(str1: string, str2: string): (r: real)
    ensures 0.0 <= r <= 1.0
  {
    var words1, words2 := WordSet(str1), WordSet(str2);
    var common, larger := |words1 * words2| as real, Max(|words1|, |words2|) as real;
    CommonAtMost(words1, words2);
    RatioInUnit(common, larger);
    common / larger
  }

  lemma RatioInUnit(c: real, m: real)
    requires 0.0 <= c <= m && m > 0.0
    ensures 0.0 <= c / m <= 1.0
  {
    assert (c / m) * m == c;
  }

  /** The score does not depend on the order of its arguments. */
  lemma SimilaritySymmetric(str1: string, str2: string)
    ensures Similarity(str1, str2) == Similarity(str2, str1)
  {
    assert WordSet(str1) * WordSet(str2) == WordSet(str2) * WordSet(str1);
  }

  /** A string is fully similar to itself. */
  lemma SimilarityOfSame(s: string)
    ensures Similarity(s, s) == 1.0
  {
    assert WordSet(s) * WordSet(s) == WordSet(s);
  }

  /** The threshold test `score > 0.7` is the integer test `10 * common > 7 * larger`. */
  lemma SimilarEnoughIff(str1: string, str2: string)
    ensures var words1, words2 := WordSet(str1), WordSet(str2);
      Similarity(str1, str2) > 0.7
      <==> 10 * |words1 * words2| > 7 * Max(|words1|, |words2|)
  {
    var words1, words2 := WordSet(str1), WordSet(str2);
    RatioAbove(|words1 * words2| as real, Max(|words1|, |words2|) as real);
  }

  lemma RatioAbove(c: real, m: real)
    requires m > 0.0
    ensures c / m > 0.7 <==> 10.0 * c > 7.0 * m
  {
    var score := c / m;
    assert score * m == c;
    if score > 0.7 {
      assert (score - 0.7) * m > 0.0;
    } else {
      assert (0.7 - score) * m >= 0.0;
    }
  }

  /** One more word of the first set adds one shared word exactly when the second set has it. */
  lemma CommonStep(seen: set<string>, word: string, words2: set<string>)
    requires word !in seen
    ensures |(seen + {word}) * words2| == |seen * words2| + (if word in words2 then 1 else 0)
  {
    if word in words2 {
      assert (seen + {word}) * words2 == seen * words2 + {word};
    } else {
      assert (seen + {word}) * words2 == seen * words2;
    }
  }

  /** The counting loop of `stringSimilarity`: each word of the first set that the
      second set also has adds one. */
  method CountCommonWords(words1: set<string>, words2: set<string>) returns (commonWords: nat)
    ensures commonWords == |words1 * words2|
  {
    commonWords := 0;
    var remaining := words1;
    ghost var seen: set<string> := {};
    while remaining != {}
      invariant remaining + seen == words1 && remaining !! seen
      invariant commonWords == |seen * words2|
      decreases |remaining|
    {
      var word :| word in remaining;
      CommonStep(seen, word, words2);
      if word in words2 {
        commonWords := commonWords + 1;
      }
      remaining := remaining - {word};
      seen := seen + {word};
    }
    assert seen == words1;
  }

  /** `stringSimilarity` as the source computes it. */
  method StringSimilarity(str1: string, str2: string) returns (score: real)
    ensures score == Similarity(str1, str2)
    ensures 0.0 <= score <= 1.0
  {
    var words1 := WordSet(str1);
    var words2 := WordSet(str2);
    var commonWords := CountCommonWords(words1, words2);
    score := commonWords as real / Max(|words1|, |words2|) as real;
  }

  /** The lower-cased contents of the user turns among `turns`, in order. */
  function UserContents(turns: seq<Turn>): seq<string>
    decreases |turns|
  {
    if |turns| == 0 then []
    else
      var last := turns[|turns| - 1];
      UserContents(turns[..|turns| - 1]) + (if last.role == UserRole then [ToLower(last.content)] else [])
  }

  /** `checkContextForResponse`: among the last three turns, the last two user turns
      are compared; a score above 0.7 gives the repeat reply. */
  function CheckContext(history: seq<Turn>): (r: Option<string>)
    ensures r.Some? ==> r.value == RepeatReply && |history| >= 3
  {
    if |history| < 3 then None
    else
      var users := UserContents(history[|history| - 3..]);
      if |users| >= 2 && Similarity(users[|users| - 1], users[|users| - 2]) > 0.7 then Some(RepeatReply)
      else None
  }

  /** `simulateAIResponse`: the keyword cascade on the lower-cased message. */
  function SimulateResponse(userMessage: string, history: seq<Turn>, utcNow: string, pick: nat): (r: string)
    requires pick < |DefaultResponses|
    ensures IsFixedReply(r) || r == TimeReply(utcNow)
  {
    Cascade(ToLower(userMessage), history, utcNow, pick)
  }

  /** The cascade on an already lower-cased `message`: first match wins, then the
      history check, then the fallback `DefaultResponses[pick]`. */
  function Cascade(message: string, history: seq<Turn>, utcNow: string, pick: nat): (r: string)
    requires pick < |DefaultResponses|
    ensures IsFixedReply(r) || r == TimeReply(utcNow)
  {
    if IsGreeting(message) then GreetingReply
    else if AsksIdentity(message) then IdentityReply
    else if AsksHelp(message) then HelpReply
    else if SaysThanks(message) then ThanksReply
    else if IsQuestion(message) then AnswerQuestion(message, utcNow)
    else match CheckContext(history)
      case Some(reply) => reply
      case None => DefaultResponses[pick]
  }

  /** The reply depends on the message only through its lower-cased form. */
  lemma ReplyIgnoresCase(userMessage: string, history: seq<Turn>, utcNow: string, pick: nat)
    requires pick < |DefaultResponses|
    ensures SimulateResponse(ToLower(userMessage), history, utcNow, pick)
         == SimulateResponse(userMessage, history, utcNow, pick)
  {
    ToLowerIdempotent(userMessage);
  }

  /** When a keyword rule fires, the random choice plays no part in the reply. */
  lemma KeywordRepliesAreDeterministic(userMessage: string, history: seq<Turn>, utcNow: string, pick1: nat, pick2: nat)
    requires pick1 < |DefaultResponses| && pick2 < |DefaultResponses|
    requires KeywordRuleFires(ToLower(userMessage))
    ensures SimulateResponse(userMessage, history, utcNow, pick1) == SimulateResponse(userMessage, history, utcNow, pick2)
  {
  }

  /** With no keyword rule and no repetition, the reply is one of the five default prompts. */
  lemma FallbackIsADefaultPrompt(userMessage: string, history: seq<Turn>, utcNow: string, pick: nat)
    requires pick < |DefaultResponses|
    requires !KeywordRuleFires(ToLower(userMessage)) && CheckContext(history).None?
    ensures SimulateResponse(userMessage, history, utcNow, pick) in DefaultResponses
  {
  }

  lemma LowerOfLowercase(s: string)
    requires forall c :: c in s ==> !('A' <= c <= 'Z')
    ensures ToLower(s) == s
  {
    assert forall i :: 0 <= i < |s| ==> s[i] in s;
  }

  /** The greeting test has no word boundary and beats the `?` rule: "history?" is greeted. */
  lemma HistoryQuestionIsGreeted(history: seq<Turn>, utcNow: string, pick: nat)
    requires pick < |DefaultResponses|
    ensures IsQuestion(ToLower("history?"))
    ensures SimulateResponse("history?", history, utcNow, pick) == GreetingReply
  {
    var m := "history?";
    LowerOfLowercase(m);
    assert m[..2] == "hi";
    assert OccursAt(m, "?", 7);
    ContainsAt(m, "?", 7);
  }

  lemma ThankYouIsLowercase()
    ensures ToLower("thank you for your help") == "thank you for your help"
  {
    var m := "thank you for your help";
    forall i | 0 <= i < |m|
      ensures !('A' <= m[i] <= 'Z')
    {
    }
    assert forall c :: c in m ==> !('A' <= c <= 'Z');
    LowerOfLowercase(m);
  }

  lemma ThankYouMatchesNoEarlierRule()
    ensures !IsGreeting("thank you for your help") && !AsksIdentity("thank you for your help")
  {
    var m := "thank you for your help";
    NotStartsWithFirstChar(m, "hi");
    NotStartsWithFirstChar(m, "hello");
    NotStartsWithFirstChar(m, "hey");
    NotStartsWithFirstChar(m, "greetings");
    forall i | 0 <= i < |m|
      ensures m[i] != 'w'
    {
    }
    NotContainsFirstChar(m, "who are you");
    NotContainsFirstChar(m, "what are you");
  }

  lemma ThankYouMatchesHelpAndThanks()
    ensures AsksHelp("thank you for your help") && SaysThanks("thank you for your help")
  {
    var m := "thank you for your help";
    assert OccursAt(m, "help", 19);
    ContainsAt(m, "help", 19);
    assert OccursAt(m, "thank you", 0);
    ContainsAt(m, "thank you", 0);
  }

  /** The greeting rule comes first: a greeted message gets the greeting whatever
      else it contains, whatever the history and whatever the random pick. */
  lemma GreetingWins(userMessage: string, history: seq<Turn>, utcNow: string, pick: nat)
    requires pick < |DefaultResponses|
    requires IsGreeting(ToLower(userMessage))
    ensures SimulateResponse(userMessage, history, utcNow, pick) == GreetingReply
  {
  }

  /** The identity rule comes before the help rule: an ungreeted message that asks
      who or what the bot is gets the identity reply even when it also asks for help. */
  lemma IdentityBeatsHelp(userMessage: string, history: seq<Turn>, utcNow: string, pick: nat)
    requires pick < |DefaultResponses|
    requires var m := ToLower(userMessage); !IsGreeting(m) && AsksIdentity(m)
    ensures SimulateResponse(userMessage, history, utcNow, pick) == IdentityReply
    ensures SimulateResponse(userMessage, history, utcNow, pick) != HelpReply
  {
    assert |IdentityReply| != |HelpReply|;
  }

  /** No answer to a question is the "You're welcome!" reply: the fixed answers
      differ from it in length, the time answer in its closing full stop. */
  lemma AnswerIsNotThanks(message: string, utcNow: string)
    ensures AnswerQuestion(message, utcNow) != ThanksReply
  {
    assert |HowAreYouReply| != |ThanksReply| && |WeatherReply| != |ThanksReply| && |QuestionReply| != |ThanksReply|;
    var time := TimeReply(utcNow);
    assert time[|time| - 1] == '.';
    assert ThanksReply[|ThanksReply| - 1] == '?';
  }

  /** The thanks rule comes before the `?` rule: thanks ending in a question mark
      still gets "You're welcome!", never an answer to the question. */
  lemma ThanksBeatsQuestion(userMessage: string, history: seq<Turn>, utcNow: string, pick: nat)
    requires pick < |DefaultResponses|
    requires var m := ToLower(userMessage); !IsGreeting(m) && !AsksIdentity(m) && !AsksHelp(m) && SaysThanks(m)
    ensures SimulateResponse(userMessage, history, utcNow, pick) == ThanksReply
    ensures SimulateResponse(userMessage, history, utcNow, pick) != AnswerQuestion(ToLower(userMessage), utcNow)
  {
    AnswerIsNotThanks(ToLower(userMessage), utcNow);
  }

  /** The help rule comes before the thanks rule: a message matching both gets the help reply. */
  lemma HelpBeatsThanks(userMessage: string, history: seq<Turn>, utcNow: string, pick: nat)
    requires pick < |DefaultResponses|
    requires var m := ToLower(userMessage); !IsGreeting(m) && !AsksIdentity(m) && AsksHelp(m)
    ensures SimulateResponse(userMessage, history, utcNow, pick) == HelpReply
    ensures SimulateResponse(userMessage, history, utcNow, pick) != ThanksReply
  {
    assert |HelpReply| != |ThanksReply|;
  }

  /** "thank you for your help" matches the thanks rule but gets the help reply,
      not the "You're welcome!" one. */
  lemma ThankYouForYourHelpGetsHelpReply(history: seq<Turn>, utcNow: string, pick: nat)
    requires pick < |DefaultResponses|
    ensures SaysThanks("thank you for your help")
    ensures SimulateResponse("thank you for your help", history, utcNow, pick) == HelpReply
    ensures SimulateResponse("thank you for your help", history, utcNow, pick) != ThanksReply
  {
    ThankYouIsLowercase();
    ThankYouMatchesNoEarlierRule();
    ThankYouMatchesHelpAndThanks();
    HelpBeatsThanks("thank you for your help", history, utcNow, pick);
  }

  /** A push keeps the last `k` turns (for `k` below the cap) and puts the new one after them. */
  lemma PushKeepsTail(h: seq<Turn>, t: Turn, k: nat)
    requires |h| <= MaxHistoryLength && k < MaxHistoryLength && k <= |h|
    ensures var r := Push(h, t); |r| >= k + 1 && r[|r| - (k + 1)..] == h[|h| - k..] + [t]
  {
    var x := h + [t];
    assert x[|x| - (k + 1)..] == h[|h| - k..] + [t];
    if |x| > MaxHistoryLength {
      assert x[1..][|x| - 1 - (k + 1)..] == x[|x| - (k + 1)..];
    }
  }

  lemma LastThreeOfPushes(history: seq<Turn>, t1: Turn, t2: Turn, t3: Turn)
    requires |history| <= MaxHistoryLength
    ensures var r := Push(Push(Push(history, t1), t2), t3);
      |r| >= 3 && r[|r| - 3..] == [t1, t2, t3]
  {
    var h1 := Push(history, t1);
    PushKeepsTail(history, t1, 0);
    var h2 := Push(h1, t2);
    PushKeepsTail(h1, t2, 1);
    PushKeepsTail(h2, t3, 2);
  }

  /** After a user turn, a reply and a second user turn, the repeat reply fires exactly
      when the two lower-cased user messages score above 0.7. */
  lemma {:induction false} RepeatDetectedIff(history: seq<Turn>, first: string, reply: string, second: string)
    requires |history| <= MaxHistoryLength
    ensures var h := Push(Push(Push(history, Turn(UserRole, first)), Turn(AssistantRole, reply)), Turn(UserRole, second));
      CheckContext(h) == Some(RepeatReply) <==> Similarity(ToLower(second), ToLower(first)) > 0.7
  {
    var t1, t2, t3 := Turn(UserRole, first), Turn(AssistantRole, reply), Turn(UserRole, second);
    LastThreeOfPushes(history, t1, t2, t3);
    var last3 := [t1, t2, t3];
    assert last3[..2] == [t1, t2] && [t1, t2][..1] == [t1] && [t1][..0] == [];
    assert UserContents([t1]) == [ToLower(first)];
    assert UserContents([t1, t2]) == [ToLower(first)];
    assert UserContents(last3) == [ToLower(first), ToLower(second)];
  }

  /** Sending the same message twice in a row, with no keyword rule matching it,
      draws the repeat reply the second time. */
  lemma SameMessageTwiceIsNoticed(history: seq<Turn>, message: string, reply: string, utcNow: string, pick: nat)
    requires |history| <= MaxHistoryLength && pick < |DefaultResponses|
    requires !KeywordRuleFires(ToLower(message))
    ensures var h := Push(Push(Push(history, Turn(UserRole, message)), Turn(AssistantRole, reply)), Turn(UserRole, message));
      SimulateResponse(message, h, utcNow, pick) == RepeatReply
  {
    RepeatDetectedIff(history, message, reply, message);
    SimilarityOfSame(ToLower(message));
  }

  /** The process-wide `conversationHistory` map. */
  class ConversationMemory {
    var histories: map<string, seq<Turn>>

    /** No user's history exceeds the cap. */
    ghost predicate Valid()
      reads this
    {
      forall u :: u in histories ==> |histories[u]| <= MaxHistoryLength
    }

    /** A user's history; a user never seen has none. */
    function HistoryOf(userId: string): seq<Turn>
      reads this
    {
      if userId in histories then histories[userId] else []
    }

    constructor ()
      ensures Valid() && histories == map[]
    {
      histories := map[];
    }

    /** `initUserHistory`: an empty history for a user not seen before. */
    method InitUserHistory(userId: string)
      requires Valid()
      modifies this
      ensures Valid()
      ensures userId in histories && HistoryOf(userId) == old(HistoryOf(userId))
      ensures histories == if userId in old(histories) then old(histories) else old(histories)[userId := []]
    {
      if userId !in histories {
        histories := histories[userId := []];
      }
    }

    /** `addToHistory(userId, {sender, text})`: the turn is appended last and, if that
        makes eleven, the oldest is dropped; other users' histories are untouched. */
    method AddToHistory(userId: string, sender: string, text: string)
      requires Valid()
      modifies this
      ensures Valid()
      ensures histories == old(histories)[userId := Push(old(HistoryOf(userId)), TurnFor(sender, text))]
      ensures |HistoryOf(userId)| <= MaxHistoryLength
      ensures forall u :: u != userId ==> HistoryOf(u) == old(HistoryOf(u))
    {
      InitUserHistory(userId);
      var history := histories[userId];
      history := history + [TurnFor(sender, text)];
      if |history| > MaxHistoryLength {
        history := history[1..];
      }
      histories := histories[userId := history];
    }

    /** `getUserHistory`: the user's history, creating an empty one for a new user. */
    method GetUserHistory(userId: string) returns (history: seq<Turn>)
      requires Valid()
      modifies this
      ensures Valid()
      ensures history == old(HistoryOf(userId))
      ensures userId !in old(histories) ==> history == []
      ensures histories == old(histories)[userId := history]
    {
      InitUserHistory(userId);
      history := histories[userId];
    }

    /** `clearHistory`: the user's history becomes empty. */
    method ClearHistory(userId: string)
      requires Valid()
      modifies this
      ensures Valid()
      ensures histories == old(histories)[userId := []]
      ensures HistoryOf(userId) == []
    {
      histories := histories[userId := []];
    }

    /** `generateResponse`: the user turn is recorded, the reply is computed from the
        history that now ends with it, and the reply is recorded as an assistant turn. */
    method GenerateResponse(userId: string, userMessage: string, utcNow: string, pick: nat) returns (reply: string)
      requires Valid() && pick < |DefaultResponses|
      modifies this
      ensures Valid()
      ensures var asked := Push(old(HistoryOf(userId)), Turn(UserRole, userMessage));
        && reply == SimulateResponse(userMessage, asked, utcNow, pick)
        && histories == old(histories)[userId := Push(asked, Turn(AssistantRole, reply))]
      ensures var h := HistoryOf(userId);
        |h| >= 2 && h[|h| - 2] == Turn(UserRole, userMessage) && h[|h| - 1] == Turn(AssistantRole, reply)
    {
      ghost var before := HistoryOf(userId);
      ghost var others := histories;
      UserAndBotTurns(userMessage);
      AddToHistory(userId, "user", userMessage);
      var history := GetUserHistory(userId);
      reply := SimulateResponse(userMessage, history, utcNow, pick);
      UserAndBotTurns(reply);
      AddToHistory(userId, "bot", reply);
      assert histories == others[userId := Push(history, Turn(AssistantRole, reply))];
      PushTwoEndsWith(before, Turn(UserRole, userMessage), Turn(AssistantRole, reply));
    }
  }
}
