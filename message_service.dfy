/** The in-memory chat log of `backend/services/messageService.js`. Message ids
    come from `Date.now() + Math.floor(Math.random() * 1000)` and timestamps from
    `new Date()`: both are parameters here (`id`, `now`). */
module MessageService {
  import opened Wrappers
  import opened JsValue
  import opened Seqs
  import opened Strings

  const WelcomeText := "Welcome to SimpleChat! How can I help you today?"

  /** `{id, text, sender, userId, timestamp}`; the three caller-supplied fields
      are stored as given, whatever their type. */
  datatype Message = Message(id: nat, text: Value, sender: Value, userId: Value, timestamp: int)

  /** The message the store starts with. */
  function Welcome(id: nat, now: int): (m: Message)
    ensures m.text == Str(WelcomeText) && m.sender == Str("bot") && m.userId == Str("bot")
    ensures m.id == id && m.timestamp == now
  {
    Message(id, Str(WelcomeText), Str("bot"), Str("bot"), now)
  }

  /** `messages.find(message => message.id === parseInt(id, 10)) || null`:
      the earliest message whose id is the parsed number; nothing when the
      string does not start with a number (NaN equals no id). */
  function FindById(messages: seq<Message>, id: string): (r: Option<Message>)
    ensures r.Some? ==> ParseInt10(id) == Some(r.value.id as int)
    ensures r.Some? ==>
      exists k :: 0 <= k < |messages| && messages[k] == r.value && forall j :: 0 <= j < k ==> messages[j].id != r.value.id
    ensures r.None? ==>
      (ParseInt10(id).None? || forall k :: 0 <= k < |messages| ==> messages[k].id as int != ParseInt10(id).value)
  {
    match ParseInt10(id)
    case None => None
    case Some(n) =>
      match FirstWhere(messages, (m: Message) => m.id as int == n)
      case None => None
      case Some(k) => Some(messages[k])
  }

  /** A message appended under an id no earlier message has is found by the
      decimal rendering of that id, even with text after the digits. */
  lemma AppendedMessageIsFound(messages: seq<Message>, m: Message, suffix: string)
    requires forall k :: 0 <= k < |messages| ==> messages[k].id != m.id
    requires |suffix| > 0 ==> !IsDigit(suffix[0])
    ensures FindById(messages + [m], Decimal(m.id) + suffix) == Some(m)
  {
    ParseIntOfDecimal(m.id, suffix);
    var p := (x: Message) => x.id as int == m.id as int;
    FirstWhereAppend(messages, m, p);
  }

  /** Appending never changes which message an id finds, once one is found. */
  lemma FoundStaysFound(messages: seq<Message>, m: Message, id: string)
    requires FindById(messages, id).Some?
    ensures FindById(messages + [m], id) == FindById(messages, id)
  {
    var n := ParseInt10(id).value;
    var p := (x: Message) => x.id as int == n;
    FirstWhereAppend(messages, m, p);
    var k := FirstWhere(messages, p).value;
    assert (messages + [m])[k] == messages[k];
  }

  /** A string with no leading digit finds nothing, whatever the log holds. */
  lemma NonNumericIdFindsNothing(messages: seq<Message>, id: string)
    requires |id| > 0 && !IsDigit(id[0]) && !IsSpace(id[0]) && id[0] != '-' && id[0] != '+'
    ensures FindById(messages, id) == None
  {
    assert DropSpaces(id) == id;
    assert SignAndRest(id) == (false, id);
    assert DigitPrefix(id) == "";
  }

  /** The process-wide `messages` array. */
  class MessageLog {
    var messages: seq<Message>

    /** The module's initial state: the welcome message alone. */
    constructor (id: nat, now: int)
      ensures messages == [Welcome(id, now)]
    {
      messages := [Welcome(id, now)];
    }

    /** `getAllMessages`: every message, oldest first. */
    function GetAllMessages(): (r: seq<Message>)
      reads this
      ensures |r| == |messages| && forall k :: 0 <= k < |r| ==> r[k] == messages[k]
    {
      messages
    }

    /** `getMessageById` */
    function GetMessageById(id: string): (r: Option<Message>)
      reads this
      ensures r.Some? ==> r.value in messages && ParseInt10(id) == Some(r.value.id as int)
      ensures r.None? && ParseInt10(id).Some? ==> forall k :: 0 <= k < |messages| ==> messages[k].id as int != ParseInt10(id).value
    {
      FindById(messages, id)
    }

    /** `createMessage({text, sender, userId})`: exactly one message is appended,
        carrying the fields as given, and it is returned. */
    method CreateMessage(text: Value, sender: Value, userId: Value, id: nat, now: int) returns (m: Message)
      modifies this
      ensures m == Message(id, text, sender, userId, now)
      ensures messages == old(messages) + [m]
    {
      m := Message(id, text, sender, userId, now);
      messages := messages + [m];
    }

    /** `clearMessages`: the log becomes empty, with no welcome message. */
    method ClearMessages()
      modifies this
      ensures messages == []
    {
      messages := [];
    }
  }
}
