/** The in-memory form-submission store of `backend/services/dataService.js`:
    the `dataStore` array and its `nextId` counter. `createdAt`
    (`new Date().toISOString()`) is a parameter. */
module DataService {
  import opened Wrappers
  import opened JsValue
  import opened Seqs

  const RequiredError := "Title and content are required"
  const Processed := "processed"

  /** `{id, title, content, userId, status, createdAt}` */
  datatype Entry = Entry(id: nat, title: Value, content: Value, userId: Value, status: string, createdAt: string)

  class DataStore {
    var entries: seq<Entry>
    var nextId: nat

    /** Ids are positive, strictly increasing in storage order and below
        `nextId`; every stored entry is marked processed. */
    ghost predicate Valid()
      reads this
    {
      && nextId >= 1
      && (forall i :: 0 <= i < |entries| ==> 1 <= entries[i].id < nextId && entries[i].status == Processed)
      && (forall i, j :: 0 <= i < j < |entries| ==> entries[i].id < entries[j].id)
    }

    /** The module's initial state. */
    constructor ()
      ensures Valid() && entries == [] && nextId == 1
    {
      entries := [];
      nextId := 1;
    }

    /** `processFormData({title, content}, userId)`: a falsy title or content is
        refused and nothing changes; otherwise one entry is appended under the
        old `nextId`, marked processed and owned by `userId`, the counter moves
        on by one, and the very entry stored is returned. */
    method ProcessFormData(title: Value, content: Value, userId: Value, createdAt: string) returns (r: Result<Entry>)
      requires Valid()
      modifies this
      ensures Valid()
      ensures !Truthy(title) || !Truthy(content) ==>
        r == Err(RequiredError) && entries == old(entries) && nextId == old(nextId)
      ensures Truthy(title) && Truthy(content) ==>
        && r.Ok?
        && r.value == Entry(old(nextId), title, content, userId, Processed, createdAt)
        && entries == old(entries) + [r.value]
        && nextId == old(nextId) + 1
    {
      if !Truthy(title) || !Truthy(content) {
        return Err(RequiredError);
      }
      var entry := Entry(nextId, title, content, userId, Processed, createdAt);
      nextId := nextId + 1;
      entries := entries + [entry];
      r := Ok(entry);
    }

    /** `getUserData(userId)`: the entries whose owner is `=== userId`, in storage order. */
    function GetUserData(userId: Value): (r: seq<Entry>)
      reads this
      ensures forall i :: 0 <= i < |r| ==> r[i] in entries && StrictEquals(r[i].userId, userId)
      ensures forall i :: 0 <= i < |entries| && StrictEquals(entries[i].userId, userId) ==> entries[i] in r
    {
      Filter(entries, (e: Entry) => StrictEquals(e.userId, userId))
    }

    /** `getDataById(id)`: the first entry whose id is `Number(id)`; NaN matches nothing.
        `Number(id)` runs once per stored entry, so it can throw only when there is one. */
    function GetDataById(id: Value): (r: Result<Option<Entry>>)
      reads this
      ensures r.Err? <==> |entries| > 0 && ToNumber(id).Err?
      ensures r.Err? ==> r.message == ConversionError
      ensures r.Ok? && r.value.Some? ==>
        r.value.value in entries && ToNumber(id) == Ok(Finite(r.value.value.id as real))
      ensures r == Ok(None) ==> forall i :: 0 <= i < |entries| ==> ToNumber(id) != Ok(Finite(entries[i].id as real))
    {
      if |entries| == 0 then Ok(None)
      else match ToNumber(id)
        case Err(message) => Err(message)
        case Ok(n) =>
          match FirstWhere(entries, (e: Entry) => n == Finite(e.id as real))
          case None => Ok(None)
          case Some(k) => Ok(Some(entries[k]))
    }
  }

  /** After a submission, its owner's listing gains exactly the new entry at the
      end, and every other owner's listing is as before. */
  lemma SubmissionListedForOwnerOnly(before: seq<Entry>, e: Entry, after: DataStore, owner: Value)
    requires after.entries == before + [e] && IsPrimitive(e.userId)
    ensures StrictEquals(owner, e.userId) ==>
      after.GetUserData(owner) == Filter(before, (x: Entry) => StrictEquals(x.userId, owner)) + [e]
    ensures !StrictEquals(owner, e.userId) ==>
      after.GetUserData(owner) == Filter(before, (x: Entry) => StrictEquals(x.userId, owner))
  {
    var p := (x: Entry) => StrictEquals(x.userId, owner);
    FilterConcat(before, [e], p);
    assert [e][..0] == [];
    StrictEqualsIff(owner, e.userId);
  }

  /** With increasing ids, any id that converts to a stored entry's id (the number
      itself, its decimal string, an array holding it) finds that entry. */
  lemma FindByIdOfStored(store: DataStore, k: nat, id: Value)
    requires store.Valid() && k < |store.entries|
    requires ToNumber(id) == Ok(Finite(store.entries[k].id as real))
    ensures store.GetDataById(id) == Ok(Some(store.entries[k]))
  {
    var entries := store.entries;
    var n := Finite(entries[k].id as real);
    var p := (e: Entry) => n == Finite(e.id as real);
    assert p(entries[k]);
    assert forall j :: 0 <= j < k ==> entries[j].id < entries[k].id;
    assert FirstWhere(entries, p) == Some(k);
  }
}
