/** The account routes of `backend/controllers/userController.js`. */
module UserController {
  import opened Wrappers
  import opened JsValue
  import opened UserModel
  import opened AuthService
  import opened AuthMiddleware
  import opened Http

  const EmailAndPasswordRequired := "Email and password are required"

  datatype Body = Session(user: User, token: string) | Profile(user: User) | Note(message: string)

  /** `POST /signup`: a falsy email or password is 400 and registers nothing; a
      duplicate email is 409 with the store's message; otherwise 201 with the
      new user, without its password, and its token. */
  method Signup(store: UserStore, p: Primitives, body: Value, createdAt: string) returns (r: Response<Body>)
    requires store.Valid()
    modifies store
    ensures store.Valid()
    ensures body.Undefined? || body.Null? ==>
      r == Forward(DestructureError) && store.users == old(store.users) && store.nextId == old(store.nextId)
    ensures !(body.Undefined? || body.Null?) && (!Truthy(Get(body, "email")) || !Truthy(Get(body, "password"))) ==>
      r == Respond(400, Note(EmailAndPasswordRequired)) && store.users == old(store.users) && store.nextId == old(store.nextId)
    ensures !(body.Undefined? || body.Null?) && Truthy(Get(body, "email")) && Truthy(Get(body, "password")) ==>
      if old(store.FindUserByEmail(Get(body, "email"))).Some? then
        r == Respond(409, Note(DuplicateEmailError)) && store.users == old(store.users) && store.nextId == old(store.nextId)
      else
        var u := User(old(store.nextId), Get(body, "email"), Get(body, "password"), createdAt);
        && store.users == old(store.users) + [u]
        && store.nextId == old(store.nextId) + 1
        && r == Respond(201, Session(WithoutPassword(u), GenerateToken(p, PayloadFor(u))))
  {
    if body.Undefined? || body.Null? {
      return Forward(DestructureError);
    }
    var email, password := Get(body, "email"), Get(body, "password");
    if !Truthy(email) || !Truthy(password) {
      return Respond(400, Note(EmailAndPasswordRequired));
    }
    var registered := RegisterUser(store, p, email, password, createdAt);
    match registered
    case Err(message) =>
      r := Respond(409, Note(message));
    case Ok((user, token)) =>
      r := Respond(201, Session(user, token));
  }

  /** `POST /login`: a falsy email or password is 400; refused credentials are
      401 with the service's message; otherwise 200 with the user and a token. */
  function Login(store: UserStore, p: Primitives, body: Value): (r: Response<Body>)
    reads store
    ensures (body.Undefined? || body.Null?) <==> r == Forward(DestructureError)
    ensures r.Respond? ==> r.status in {200, 400, 401}
    ensures r.Respond? && r.status == 400 <==>
      !(body.Undefined? || body.Null?) && (!Truthy(Get(body, "email")) || !Truthy(Get(body, "password")))
    ensures r.Respond? && r.status == 401 ==>
      r.body == Note(InvalidCredentials) && LoginUser(store, p, Get(body, "email"), Get(body, "password")).Err?
    ensures r.Respond? && r.status == 200 ==>
      && r.body.Session?
      && LoginUser(store, p, Get(body, "email"), Get(body, "password")) == Ok((r.body.user, r.body.token))
      && r.body.user.password == Undefined
  {
    if body.Undefined? || body.Null? then Forward(DestructureError)
    else
      var email, password := Get(body, "email"), Get(body, "password");
      if !Truthy(email) || !Truthy(password) then Respond(400, Note(EmailAndPasswordRequired))
      else match LoginUser(store, p, email, password)
        case Err(message) => Respond(401, Note(message))
        case Ok((user, token)) => Respond(200, Session(user, token))
  }

  /** `GET /me` behind `authenticate`: 200 with the user the middleware
      attached, or the middleware's 401 refusal and its message. */
  function GetCurrentUser(store: UserStore, p: Primitives, header: Option<string>): (r: Response<Body>)
    reads store
    ensures r.Respond? && (r.status == 401 <==> Authenticate(store, p, header).Reject?)
    ensures r.Respond? && r.status == 200 ==> r.body.Profile? && r.body.user.password == Undefined
    ensures Authenticate(store, p, header).Proceed? ==> r == Respond(200, Profile(Authenticate(store, p, header).user))
    ensures Authenticate(store, p, header).Reject? ==> r == Respond(401, Note(Authenticate(store, p, header).message))
  {
    match Authenticate(store, p, header)
    case Reject(status, message) => Respond(status, Note(message))
    case Proceed(user) => Respond(200, Profile(user))
  }

  /** Signing up and then logging in with the same credentials gives back the
      same user and the same token. */
  lemma SignupThenLogin(before: seq<User>, u: User, store: UserStore, p: Primitives, body: Value)
    requires store.users == before + [u]
    requires forall i :: 0 <= i < |before| ==> !StrictEquals(before[i].email, u.email)
    requires !(body.Undefined? || body.Null?)
    requires Get(body, "email") == u.email && Get(body, "password") == u.password
    requires Truthy(u.email) && Truthy(u.password) && IsPrimitive(u.email) && IsPrimitive(u.password)
    ensures Login(store, p, body) == Respond(200, Session(WithoutPassword(u), GenerateToken(p, PayloadFor(u))))
  {
    CreatedUserIsFoundByEmail(before, u, store);
    StrictEqualsIff(u.password, u.password);
  }

  /** A second signup with an email already taken is a conflict. */
  lemma SecondSignupConflicts(store: UserStore, k: nat, body: Value)
    requires k < |store.users| && !(body.Undefined? || body.Null?)
    requires Get(body, "email") == store.users[k].email && IsPrimitive(store.users[k].email)
    ensures store.FindUserByEmail(Get(body, "email")).Some?
  {
    StrictEqualsIff(store.users[k].email, store.users[k].email);
  }
}
