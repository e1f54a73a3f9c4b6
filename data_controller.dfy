/** The form-submission routes of `backend/controllers/dataController.js`,
    both behind `authenticate`: `user` is the `req.user` it attached. */
module DataController {
  import opened Wrappers
  import opened JsValue
  import opened UserModel
  import opened DataService
  import opened Seqs
  import opened Http

  datatype Body = Receipt(id: nat, title: Value, status: string) | Entries(entries: seq<Entry>) | Note(message: string)

  /** `POST /data`: a falsy title or content is 400 and stores nothing;
      otherwise the entry is stored under the authenticated user's id, whatever
      the body says, and only its id, title and status are sent back with 200. */
  method SubmitFormData(store: DataStore, body: Value, user: User, createdAt: string) returns (r: Response<Body>)
    requires store.Valid()
    modifies store
    ensures store.Valid()
    ensures body.Undefined? || body.Null? ==>
      r == Forward(DestructureError) && store.entries == old(store.entries) && store.nextId == old(store.nextId)
    ensures !(body.Undefined? || body.Null?) && (!Truthy(Get(body, "title")) || !Truthy(Get(body, "content"))) ==>
      r == Respond(400, Note(RequiredError)) && store.entries == old(store.entries) && store.nextId == old(store.nextId)
    ensures !(body.Undefined? || body.Null?) && Truthy(Get(body, "title")) && Truthy(Get(body, "content")) ==>
      var e := Entry(old(store.nextId), Get(body, "title"), Get(body, "content"), Num(user.id), Processed, createdAt);
      && store.entries == old(store.entries) + [e]
      && store.nextId == old(store.nextId) + 1
      && r == Respond(200, Receipt(e.id, e.title, Processed))
  {
    if body.Undefined? || body.Null? {
      return Forward(DestructureError);
    }
    var title, content := Get(body, "title"), Get(body, "content");
    if !Truthy(title) || !Truthy(content) {
      return Respond(400, Note(RequiredError));
    }
    var processed := store.ProcessFormData(title, content, Num(user.id), createdAt);
    match processed
    case Err(message) =>
      r := Forward(message);
    case Ok(entry) =>
      r := Respond(200, Receipt(entry.id, entry.title, entry.status));
  }

  /** `GET /data`: 200 with exactly the authenticated user's entries. */
  function GetUserData(store: DataStore, user: User): (r: Response<Body>)
    reads store
    ensures r.Respond? && r.status == 200 && r.body.Entries?
    ensures forall i :: 0 <= i < |r.body.entries| ==> r.body.entries[i] in store.entries && r.body.entries[i].userId == Num(user.id)
    ensures forall i :: 0 <= i < |store.entries| && store.entries[i].userId == Num(user.id) ==> store.entries[i] in r.body.entries
  {
    Respond(200, Entries(store.GetUserData(Num(user.id))))
  }

  /** A submission shows up last in its submitter's listing, and in no one else's. */
  lemma SubmissionShowsUpForSubmitter(before: seq<Entry>, e: Entry, store: DataStore, user: User, other: User)
    requires store.entries == before + [e] && e.userId == Num(user.id) && other.id != user.id
    ensures var listing := GetUserData(store, user).body.entries;
      |listing| >= 1 && listing[|listing| - 1] == e
    ensures GetUserData(store, other).body.entries == Filter(before, (x: Entry) => StrictEquals(x.userId, Num(other.id)))
  {
    SubmissionListedForOwnerOnly(before, e, store, Num(user.id));
    SubmissionListedForOwnerOnly(before, e, store, Num(other.id));
  }
}
