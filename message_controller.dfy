/** The message routes of `backend/controllers/messageController.js`. */
module MessageController {
  import opened Wrappers
  import opened JsValue
  import opened MessageService
  import opened Http

  const NotFound := "Message not found"
  const TextAndSenderRequired := "Text and sender are required"

  datatype Body = Messages(messages: seq<Message>) | One(message: Message) | Note(text: string)

  /** `GET /messages`: 200 with the whole log. */
  function GetAllMessages(log: MessageLog): (r: Response<Body>)
    reads log
    ensures r.Respond? && r.status == 200 && r.body.Messages?
    ensures |r.body.messages| == |log.messages|
      && forall k :: 0 <= k < |log.messages| ==> r.body.messages[k] == log.messages[k]
  {
    Respond(200, Messages(log.GetAllMessages()))
  }

  /** `GET /messages/:id`: the raw path segment goes to the service; no match is 404. */
  function GetMessageById(log: MessageLog, id: string): (r: Response<Body>)
    reads log
    ensures r.Respond?
    ensures r.status == 404 <==> log.GetMessageById(id).None?
    ensures r.status == 404 ==> r.body == Note(NotFound)
    ensures r.status != 404 ==>
      r.status == 200 && r.body.One? && r.body.message in log.messages && ParseInt10(id) == Some(r.body.message.id as int)
  {
    match log.GetMessageById(id)
    case None => Respond(404, Note(NotFound))
    case Some(message) => Respond(200, One(message))
  }

  /** `POST /messages`: a falsy `text` or `sender` is 400 and stores nothing;
      otherwise exactly `{text, sender, userId}` goes to the service and the
      stored message comes back with 201. */
  method CreateMessage(log: MessageLog, body: Value, id: nat, now: int) returns (r: Response<Body>)
    modifies log
    ensures body.Undefined? || body.Null? ==> r == Forward(DestructureError) && log.messages == old(log.messages)
    ensures !(body.Undefined? || body.Null?) && (!Truthy(Get(body, "text")) || !Truthy(Get(body, "sender"))) ==>
      r == Respond(400, Note(TextAndSenderRequired)) && log.messages == old(log.messages)
    ensures !(body.Undefined? || body.Null?) && Truthy(Get(body, "text")) && Truthy(Get(body, "sender")) ==>
      var m := Message(id, Get(body, "text"), Get(body, "sender"), Get(body, "userId"), now);
      r == Respond(201, One(m)) && log.messages == old(log.messages) + [m]
  {
    if body.Undefined? || body.Null? {
      return Forward(DestructureError);
    }
    var text, sender, userId := Get(body, "text"), Get(body, "sender"), Get(body, "userId");
    if !Truthy(text) || !Truthy(sender) {
      return Respond(400, Note(TextAndSenderRequired));
    }
    var message := log.CreateMessage(text, sender, userId, id, now);
    r := Respond(201, One(message));
  }

  /** A message created under an id no earlier message has is then served by
      `GET /messages/<that id>`. */
  lemma CreatedMessageIsServed(before: seq<Message>, m: Message, log: MessageLog)
    requires log.messages == before + [m]
    requires forall k :: 0 <= k < |before| ==> before[k].id != m.id
    ensures GetMessageById(log, Decimal(m.id)) == Respond(200, One(m))
  {
    AppendedMessageIsFound(before, m, "");
    assert Decimal(m.id) + "" == Decimal(m.id);
  }
}
