/** The `authenticate` middleware of `backend/middleware/authMiddleware.js`:
    it reads the `Authorization` header, takes the bearer token and either
    refuses the request with 401 or attaches the user and lets it through.
    Writing the response, setting `req.user` and calling `next()` are the
    returned outcome. */
module AuthMiddleware {
  import opened Wrappers
  import opened Strings
  import opened JsValue
  import opened UserModel
  import opened AuthService

  const AuthenticationRequired := "Authentication required"
  const InvalidOrExpired := "Invalid or expired token"
  const AuthenticationFailed := "Authentication failed"

  /** `res.status(status).json({message})`, or `req.user = user; next()`. */
  datatype Outcome = Reject(status: int, message: string) | Proceed(user: User)

  const BearerPrefix := "Bearer "

  /** `authenticate(req, res, next)` with `header` the `authorization` header,
      `None` when the request has none. The token is the second field of the
      header split on single spaces. An error thrown while looking the user
      up is caught and answered with 401 as well. */
  function Authenticate(store: UserStore, p: Primitives, header: Option<string>): (r: Outcome)
    reads store
    ensures r == Reject(401, AuthenticationRequired) <==> header.None? || !StartsWith(header.value, BearerPrefix)
    ensures r.Reject? ==> r.status == 401
    ensures r.Reject? ==> r.message in {AuthenticationRequired, InvalidOrExpired, AuthenticationFailed}
    ensures r.Reject? && r.message != AuthenticationRequired ==>
      && header.Some? && StartsWith(header.value, BearerPrefix)
      && |Split(header.value, ' ')| >= 2
      && (r.message == AuthenticationFailed <==> GetUserFromToken(store, p, Split(header.value, ' ')[1]).Err?)
      && (r.message == InvalidOrExpired <==> GetUserFromToken(store, p, Split(header.value, ' ')[1]) == Ok(None))
    ensures r.Proceed? ==>
      && header.Some? && StartsWith(header.value, BearerPrefix)
      && |Split(header.value, ' ')| >= 2
      && GetUserFromToken(store, p, Split(header.value, ' ')[1]) == Ok(Some(r.user))
  {
    if header.None? || !StartsWith(header.value, BearerPrefix) then Reject(401, AuthenticationRequired)
    else
      var parts := BearerParts(header.value);
      match GetUserFromToken(store, p, parts[1])
      case Err(_) => Reject(401, AuthenticationFailed)
      case Ok(None) => Reject(401, InvalidOrExpired)
      case Ok(Some(user)) => Proceed(user)
  }

  /** A header starting with the prefix splits into `"Bearer"` and at least one more field. */
  function BearerParts(header: string): (parts: seq<string>)
    requires StartsWith(header, BearerPrefix)
    ensures parts == Split(header, ' ') && |parts| >= 2 && parts[0] == "Bearer"
  {
    var rest := header[|BearerPrefix|..];
    assert header == "Bearer" + [' '] + rest;
    SplitWithoutSep("Bearer", ' ');
    SplitConcat("Bearer", ' ', rest);
    Split(header, ' ')
  }

  /** Only the second space-separated field is the token: `"Bearer a b"` is
      decided on `a` exactly as `"Bearer a"` is. */
  lemma TokenIsSecondField(store: UserStore, p: Primitives, token: string, rest: string)
    requires ' ' !in token
    ensures Authenticate(store, p, Some(BearerPrefix + token + " " + rest))
         == Authenticate(store, p, Some(BearerPrefix + token))
    ensures Authenticate(store, p, Some(BearerPrefix + token)) ==
      match GetUserFromToken(store, p, token)
      case Err(_) => Reject(401, AuthenticationFailed)
      case Ok(None) => Reject(401, InvalidOrExpired)
      case Ok(Some(user)) => Proceed(user)
  {
    var long, short := BearerPrefix + token + " " + rest, BearerPrefix + token;
    assert long[..|BearerPrefix|] == BearerPrefix && short[..|BearerPrefix|] == BearerPrefix;
    assert long == "Bearer" + [' '] + token + [' '] + rest;
    assert short == "Bearer" + [' '] + token;
    SplitWithoutSep("Bearer", ' ');
    SplitWithoutSep(token, ' ');
    SplitTwo("Bearer", token, ' ');
    SplitConcat("Bearer" + [' '] + token, ' ', rest);
  }

  /** A generated token holds no space: every character is in the base64
      alphabet or is one of the two dots. */
  lemma TokenHasNoSpace(p: Primitives, payload: Value)
    requires Lawful(p)
    ensures ' ' !in GenerateToken(p, payload)
  {
    var h, b := Encode(p, Header), Encode(p, payload);
    EncodeInAlphabet(p, Header);
    EncodeInAlphabet(p, payload);
    SignatureShape(p, h, b);
    var t := GenerateToken(p, payload);
    assert t == h + "." + b + "." + Signature(p, h, b);
    forall i | 0 <= i < |t|
      ensures t[i] != ' '
    {
      if i < |h| {
        assert t[i] == h[i];
      } else if i == |h| || i == |h| + 1 + |b| {
        assert t[i] == '.';
      } else if i < |h| + 1 + |b| {
        assert t[i] == b[i - |h| - 1];
      } else {
        assert t[i] == Signature(p, h, b)[i - |h| - 2 - |b|];
      }
    }
  }

  /** A token handed out at login, sent back as `Bearer <token>`, lets the
      request through with the logged-in user attached. */
  lemma LoginTokenAuthenticates(store: UserStore, p: Primitives, email: Value, password: Value)
    requires store.Valid() && Lawful(p)
    requires LoginUser(store, p, email, password).Ok?
    requires IsJson(store.FindUserByEmail(email).value.email)
    ensures var (user, token) := LoginUser(store, p, email, password).value;
      Authenticate(store, p, Some(BearerPrefix + token)) == Proceed(user)
  {
    var (user, token) := LoginUser(store, p, email, password).value;
    var stored := store.FindUserByEmail(email).value;
    TokenHasNoSpace(p, PayloadFor(stored));
    LoginTokenIdentifiesUser(store, p, email, password);
    TokenIsSecondField(store, p, token, "");
  }

  /** A verified payload whose `userId` is an object with its own `toString`
      makes `Number` throw once there is a user to compare with; the error is
      caught and the request refused with `Authentication failed`. */
  lemma ThrowingUserIdIsCaught(store: UserStore, p: Primitives, token: string, fields: seq<(string, Value)>)
    requires |store.users| > 0 && ' ' !in token
    requires Truthy(VerifyToken(p, token)) && Get(VerifyToken(p, token), "userId") == Obj(fields)
    requires HasKey(fields, "toString")
    ensures Authenticate(store, p, Some(BearerPrefix + token)) == Reject(401, AuthenticationFailed)
  {
    ObjectConversion(fields);
    TokenIsSecondField(store, p, token, "");
  }
}
