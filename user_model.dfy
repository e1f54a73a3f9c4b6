/** The in-memory user table of `backend/models/userModel.js`: the `users`
    array and the `nextId` counter. `createdAt` (`new Date().toISOString()`)
    is a parameter. */
module UserModel {
  import opened Wrappers
  import opened JsValue
  import opened Seqs

  const DuplicateEmailError := "User with this email already exists"

  /** `{id, email, password, createdAt}`; `email` and `password` are stored as
      the caller gave them. */
  datatype User = User(id: nat, email: Value, password: Value, createdAt: string)

  /** `{ ...user, password: undefined }` */
  function WithoutPassword(u: User): (r: User)
    ensures r.password == Undefined
    ensures r.id == u.id && r.email == u.email && r.createdAt == u.createdAt
  {
    u.(password := Undefined)
  }

  class UserStore {
    var users: seq<User>
    var nextId: nat

    /** Ids are positive, strictly increasing in storage order and below
        `nextId`; no two stored emails are `===`. */
    ghost predicate Valid()
      reads this
    {
      && nextId >= 1
      && (forall i :: 0 <= i < |users| ==> 1 <= users[i].id < nextId)
      && (forall i, j :: 0 <= i < j < |users| ==> users[i].id < users[j].id)
      && (forall i, j :: 0 <= i < j < |users| ==> !StrictEquals(users[i].email, users[j].email))
    }

    /** The module's initial state. */
    constructor ()
      ensures Valid() && users == [] && nextId == 1
    {
      users := [];
      nextId := 1;
    }

    /** `findUserByEmail`: the first user whose email is `===` to `email`. */
    function FindUserByEmail(email: Value): (r: Option<User>)
      reads this
      ensures r.Some? ==> r.value in users && StrictEquals(r.value.email, email)
      ensures r.None? ==> forall i :: 0 <= i < |users| ==> !StrictEquals(users[i].email, email)
    {
      match FirstWhere(users, (u: User) => StrictEquals(u.email, email))
      case None => None
      case Some(k) => Some(users[k])
    }

    /** `findUserById`: the first user whose id is `Number(id)`; NaN matches nothing.
        `Number(id)` runs once per stored user, so it can throw only when there is one. */
    function FindUserById(id: Value): (r: Result<Option<User>>)
      reads this
      ensures r.Err? <==> |users| > 0 && ToNumber(id).Err?
      ensures r.Err? ==> r.message == ConversionError
      ensures r.Ok? && r.value.Some? ==>
        r.value.value in users && ToNumber(id) == Ok(Finite(r.value.value.id as real))
      ensures r == Ok(None) ==> forall i :: 0 <= i < |users| ==> ToNumber(id) != Ok(Finite(users[i].id as real))
    {
      if |users| == 0 then Ok(None)
      else match ToNumber(id)
        case Err(message) => Err(message)
        case Ok(n) =>
          match FirstWhere(users, (u: User) => n == Finite(u.id as real))
          case None => Ok(None)
          case Some(k) => Ok(Some(users[k]))
    }

    /** `getAllUsers`: one entry per stored user, in order, each without its password. */
    function GetAllUsers(): (r: seq<User>)
      reads this
      ensures |r| == |users|
      ensures forall i :: 0 <= i < |r| ==> r[i].password == Undefined && r[i] == WithoutPassword(users[i])
    {
      seq(|users|, i requires 0 <= i < |users| reads this => WithoutPassword(users[i]))
    }

    /** `createUser({email, password})`: a duplicate email is refused and nothing
        changes; otherwise one user is appended under the old `nextId`, the
        counter moves on by one and the user is returned without its password. */
    method CreateUser(email: Value, password: Value, createdAt: string) returns (r: Result<User>)
      requires Valid()
      modifies this
      ensures Valid()
      ensures old(FindUserByEmail(email)).Some? ==>
        r == Err(DuplicateEmailError) && users == old(users) && nextId == old(nextId)
      ensures old(FindUserByEmail(email)).None? ==>
        var u := User(old(nextId), email, password, createdAt);
        && users == old(users) + [u]
        && nextId == old(nextId) + 1
        && r == Ok(WithoutPassword(u))
    {
      var existing := FindUserByEmail(email);
      if existing.Some? {
        return Err(DuplicateEmailError);
      }
      var u := User(nextId, email, password, createdAt);
      nextId := nextId + 1;
      users := users + [u];
      r := Ok(WithoutPassword(u));
    }
  }

  /** With increasing ids, any id that converts to a stored user's id (the number
      itself, its decimal string, an array holding it) finds that user. */
  lemma FindByIdOfStored(store: UserStore, k: nat, id: Value)
    requires store.Valid() && k < |store.users|
    requires ToNumber(id) == Ok(Finite(store.users[k].id as real))
    ensures store.FindUserById(id) == Ok(Some(store.users[k]))
  {
    var users := store.users;
    var n := Finite(users[k].id as real);
    var p := (u: User) => n == Finite(u.id as real);
    assert p(users[k]);
    assert forall j :: 0 <= j < k ==> users[j].id < users[k].id;
    assert FirstWhere(users, p) == Some(k);
  }

  /** A user created with a primitive email is then found by that email, with
      the password it was created with. */
  lemma CreatedUserIsFoundByEmail(before: seq<User>, u: User, after: UserStore)
    requires after.users == before + [u] && IsPrimitive(u.email)
    requires forall i :: 0 <= i < |before| ==> !StrictEquals(before[i].email, u.email)
    ensures after.FindUserByEmail(u.email) == Some(u)
    ensures after.FindUserByEmail(u.email).value.password == u.password
  {
    var p := (x: User) => StrictEquals(x.email, u.email);
    FirstWhereAppend(before, u, p);
    StrictEqualsIff(u.email, u.email);
  }
}
