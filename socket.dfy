/** The Socket.io handlers of `backend/socket.js` as a state machine. Its state
    is the `connectedUsers` registry, the shared message log, the events sent
    so far (`outbox`, each with the set of socket ids it went to) and the bot
    echoes scheduled with `setTimeout` but not yet run (`pending`, oldest
    first). A scheduled echo runs as a separate step, `FireReply`. Message ids
    and timestamps are parameters. */
module Socket {
  import opened JsValue
  import opened MessageService

  type SocketId = string

  /** `{ id: socket.id, connected: true }` */
  datatype ConnectedUser = ConnectedUser(id: SocketId, connected: bool)

  const ConnectedStatus := "connected"
  const ConnectedMessage := "Connected to chat server"
  const InvalidFormat := "Invalid message format"
  const ProcessingError := "Error processing your message"

  datatype Event =
    | ConnectionAck(status: string, userId: SocketId, message: string)
    | MessageHistory(messages: seq<Message>)
    | ErrorEvent(message: string)
    | NewMessage(msg: Message)
    | UserTyping(userId: SocketId, isTyping: Value)
    | UserDisconnected(userId: SocketId)

  /** One event and the sockets it was sent to. */
  datatype Emission = Emission(recipients: set<SocketId>, event: Event)

  /** How `send_message` treats its payload: reading `data.text` off `null` or
      `undefined` throws (and the handler's `catch` answers); a `text` that is
      not a non-empty string is refused; anything else is accepted. */
  datatype Verdict = Throws | BadFormat | Accept(text: string)

  function ClassifySend(data: Value): (r: Verdict)
    ensures r == Throws <==> data.Undefined? || data.Null?
    ensures r == BadFormat <==>
      !(data.Undefined? || data.Null?) && !(Get(data, "text").Str? && Get(data, "text").s != "")
    ensures r.Accept? ==> Get(data, "text") == Str(r.text) && r.text != ""
  {
    if data.Undefined? || data.Null? then Throws
    else
      var text := Get(data, "text");
      if !Truthy(text) || !text.Str? then BadFormat else Accept(text.s)
  }

  /** The text of the bot's echo of `text`. */
  function EchoText(text: string): (r: string)
    ensures |r| == |text| + 27
    ensures r[..26] == "I received your message: \"" && r[26..|r| - 1] == text && r[|r| - 1] == '"'
  {
    "I received your message: \"" + text + "\""
  }

  /** The texts of the user messages among `ms`, in order. */
  function UserTexts(ms: seq<Message>): seq<string>
    decreases |ms|
  {
    if |ms| == 0 then []
    else
      var m := ms[|ms| - 1];
      UserTexts(ms[..|ms| - 1]) + (if m.sender == Str("user") && m.text.Str? then [m.text.s] else [])
  }

  /** The texts of the bot messages among `ms`, in order. */
  function BotTexts(ms: seq<Message>): seq<string>
    decreases |ms|
  {
    if |ms| == 0 then []
    else
      var m := ms[|ms| - 1];
      BotTexts(ms[..|ms| - 1]) + (if m.sender == Str("bot") && m.text.Str? then [m.text.s] else [])
  }

  /** Every prefix holds at least as many user messages as bot echoes:
      no echo ever precedes the message it answers. */
  ghost predicate EchoesFollow(trace: seq<Message>)
  {
    forall k :: 0 <= k <= |trace| ==> |BotTexts(trace[..k])| <= |UserTexts(trace[..k])|
  }

  lemma AppendExtendsPrefixes(trace: seq<Message>, m: Message)
    ensures forall k :: 0 <= k <= |trace| ==> (trace + [m])[..k] == trace[..k]
    ensures (trace + [m])[..|trace| + 1] == trace + [m]
  {
  }

  /** The i-th bot echo in `trace` answers the i-th user message and follows
      it, and `pending` holds exactly the user messages not yet answered, in order. */
  ghost predicate EchoInvariant(trace: seq<Message>, pending: seq<string>)
  {
    && |BotTexts(trace)| + |pending| == |UserTexts(trace)|
    && (forall i :: 0 <= i < |BotTexts(trace)| ==> BotTexts(trace)[i] == EchoText(UserTexts(trace)[i]))
    && pending == UserTexts(trace)[|BotTexts(trace)|..]
    && EchoesFollow(trace)
  }

  /** Appending a user message and scheduling its echo keeps the echo invariant. */
  lemma UserMessageKeepsEchoes(trace: seq<Message>, pending: seq<string>, m: Message)
    requires EchoInvariant(trace, pending) && m.sender == Str("user") && m.text.Str?
    ensures EchoInvariant(trace + [m], pending + [m.text.s])
  {
    AppendExtendsPrefixes(trace, m);
    assert UserTexts(trace + [m]) == UserTexts(trace) + [m.text.s];
    assert BotTexts(trace + [m]) == BotTexts(trace);
  }

  /** Appending the echo of the oldest scheduled text and unscheduling it keeps
      the echo invariant. */
  lemma EchoKeepsEchoes(trace: seq<Message>, pending: seq<string>, m: Message)
    requires EchoInvariant(trace, pending) && pending != []
    requires m.sender == Str("bot") && m.text == Str(EchoText(pending[0]))
    ensures EchoInvariant(trace + [m], pending[1..])
  {
    AppendExtendsPrefixes(trace, m);
    assert UserTexts(trace + [m]) == UserTexts(trace);
    assert BotTexts(trace + [m]) == BotTexts(trace) + [EchoText(pending[0])];
  }

  class ChatServer {
    /** The message log shared with the HTTP controllers. */
    const log: MessageLog
    var connectedUsers: map<SocketId, ConnectedUser>
    var outbox: seq<Emission>
    /** Texts of accepted user messages whose echo has not run yet, oldest first. */
    var pending: seq<string>
    /** The messages these handlers appended to the log, in order. Other code
        may write to the same log in between; the echo invariant is about these. */
    ghost var trace: seq<Message>

    /** The registry maps each id to its own connected record; the i-th bot
        echo answers the i-th user message and follows it; the scheduled echoes
        are exactly the user messages not yet answered, in order. */
    ghost predicate Valid()
      reads this
    {
      && (forall sid :: sid in connectedUsers ==> connectedUsers[sid] == ConnectedUser(sid, true))
      && EchoInvariant(trace, pending)
    }

    /** `setupSocketHandlers(io)` on the module's message log. */
    constructor (log: MessageLog)
      ensures Valid()
      ensures this.log == log && connectedUsers == map[] && outbox == [] && pending == [] && trace == []
    {
      this.log := log;
      connectedUsers := map[];
      outbox := [];
      pending := [];
      trace := [];
    }

    /** `connection`: the socket is registered as connected, then it alone is
        sent the acknowledgement and the whole log. */
    method Connect(sid: SocketId)
      requires Valid()
      modifies this
      ensures Valid()
      ensures connectedUsers == old(connectedUsers)[sid := ConnectedUser(sid, true)]
      ensures outbox == old(outbox) + [
        Emission({sid}, ConnectionAck(ConnectedStatus, sid, ConnectedMessage)),
        Emission({sid}, MessageHistory(log.messages))]
      ensures pending == old(pending) && trace == old(trace)
    {
      connectedUsers := connectedUsers[sid := ConnectedUser(sid, true)];
      outbox := outbox + [Emission({sid}, ConnectionAck(ConnectedStatus, sid, ConnectedMessage))];
      outbox := outbox + [Emission({sid}, MessageHistory(log.GetAllMessages()))];
    }

    /** `send_message`: a refused or throwing payload earns the sender alone an
        error event and changes nothing else; an accepted one appends one user
        message from this socket, sends it to every connected socket (the sender
        included) and schedules its echo. */
    method SendMessage(sid: SocketId, data: Value, id: nat, now: int)
      requires Valid() && sid in connectedUsers
      modifies this, log
      ensures Valid()
      ensures connectedUsers == old(connectedUsers)
      ensures ClassifySend(data) == Throws ==>
        && outbox == old(outbox) + [Emission({sid}, ErrorEvent(ProcessingError))]
        && log.messages == old(log.messages) && pending == old(pending) && trace == old(trace)
      ensures ClassifySend(data) == BadFormat ==>
        && outbox == old(outbox) + [Emission({sid}, ErrorEvent(InvalidFormat))]
        && log.messages == old(log.messages) && pending == old(pending) && trace == old(trace)
      ensures ClassifySend(data).Accept? ==>
        var m := Message(id, Str(ClassifySend(data).text), Str("user"), Str(sid), now);
        && log.messages == old(log.messages) + [m]
        && outbox == old(outbox) + [Emission(connectedUsers.Keys, NewMessage(m))]
        && pending == old(pending) + [ClassifySend(data).text]
        && trace == old(trace) + [m]
      ensures ClassifySend(data).Accept? ==> sid in outbox[|outbox| - 1].recipients
    {
      match ClassifySend(data)
      case Throws =>
        outbox := outbox + [Emission({sid}, ErrorEvent(ProcessingError))];
      case BadFormat =>
        outbox := outbox + [Emission({sid}, ErrorEvent(InvalidFormat))];
      case Accept(text) =>
        var m := log.CreateMessage(Str(text), Str("user"), Str(sid), id, now);
        UserMessageKeepsEchoes(trace, pending, m);
        trace := trace + [m];
        outbox := outbox + [Emission(connectedUsers.Keys, NewMessage(m))];
        assert sid in outbox[|outbox| - 1].recipients;
        pending := pending + [text];
    }

    /** The oldest scheduled echo runs: one bot message quoting that text is
        appended and sent to every socket connected now, whether or not its
        sender still is. */
    method FireReply(id: nat, now: int)
      requires Valid() && pending != []
      modifies this, log
      ensures Valid()
      ensures var m := Message(id, Str(EchoText(old(pending)[0])), Str("bot"), Str("bot"), now);
        && log.messages == old(log.messages) + [m]
        && outbox == old(outbox) + [Emission(connectedUsers.Keys, NewMessage(m))]
        && trace == old(trace) + [m]
      ensures pending == old(pending)[1..] && connectedUsers == old(connectedUsers)
    {
      var text := pending[0];
      var m := log.CreateMessage(Str(EchoText(text)), Str("bot"), Str("bot"), id, now);
      EchoKeepsEchoes(trace, pending, m);
      trace := trace + [m];
      outbox := outbox + [Emission(connectedUsers.Keys, NewMessage(m))];
      pending := pending[1..];
    }

    /** `typing`: every other connected socket is told this one's `isTyping`;
        nothing else changes. A `null` or `undefined` payload throws in the
        handler before anything is sent. */
    method Typing(sid: SocketId, data: Value)
      requires Valid() && sid in connectedUsers
      modifies this
      ensures Valid()
      ensures connectedUsers == old(connectedUsers) && pending == old(pending) && trace == old(trace)
      ensures data.Undefined? || data.Null? ==> outbox == old(outbox)
      ensures !(data.Undefined? || data.Null?) ==>
        outbox == old(outbox) + [Emission(connectedUsers.Keys - {sid}, UserTyping(sid, Get(data, "isTyping")))]
      ensures !(data.Undefined? || data.Null?) ==> sid !in outbox[|outbox| - 1].recipients
    {
      if data.Undefined? || data.Null? {
        return;
      }
      outbox := outbox + [Emission(connectedUsers.Keys - {sid}, UserTyping(sid, Get(data, "isTyping")))];
    }

    /** `disconnect`: only this socket leaves the registry, and the sockets still
        connected are told. Scheduled echoes stay scheduled. */
    method Disconnect(sid: SocketId)
      requires Valid()
      modifies this
      ensures Valid()
      ensures connectedUsers == old(connectedUsers) - {sid}
      ensures outbox == old(outbox) + [Emission(connectedUsers.Keys, UserDisconnected(sid))]
      ensures pending == old(pending) && trace == old(trace)
    {
      connectedUsers := connectedUsers - {sid};
      outbox := outbox + [Emission(connectedUsers.Keys, UserDisconnected(sid))];
    }
  }
}
