/** The hand-rolled signed token of `backend/services/authService.js`, shaped
    like the compact serialization of a JSON Web Token (section 3 of RFC 7519,
    section 7.1 of RFC 7515): `header.payload.signature`, each part standard
    base64 (section 4 of RFC 4648) with its `=` padding removed, the signature
    an HMAC-SHA256 (RFC 2104) over `header.payload`. JSON, base64 and the HMAC
    are not modelled bit by bit: they are the fields of `Primitives`, and what
    the proofs rely on about them is the predicate `Lawful`. */
module AuthService {
  import opened Wrappers
  import opened Strings
  import opened JsValue
  import opened UserModel

  const JwtSecret := "your_jwt_secret_key"
  const InvalidCredentials := "Invalid credentials"

  /** `JSON.stringify`, `JSON.parse` (`None` when it throws), `Buffer` base64
      encoding and decoding of the UTF-8 text, and the base64 HMAC-SHA256 digest
      under a key. */
  datatype Primitives = Primitives(
    stringify: Value -> string,
    parse: string -> Option<Value>,
    toBase64: string -> string,
    fromBase64: string -> string,
    hmacBase64: (string, string) -> string)

  /** The characters of the standard base64 alphabet. */
  predicate IsBase64Char(c: char)
  {
    'A' <= c <= 'Z' || 'a' <= c <= 'z' || '0' <= c <= '9' || c == '+' || c == '/'
  }

  /** What the library functions guarantee: JSON reads back what it wrote;
      base64 decoding reads back the encoded text even with the padding
      stripped; encodings use only the alphabet and `=`; a SHA-256 digest in
      base64 is 43 alphabet characters and one `=`. */
  ghost predicate Lawful(p: Primitives)
  {
    && (forall v :: IsJson(v) ==> p.parse(p.stringify(v)) == Some(v))
    && (forall s :: p.fromBase64(Remove(p.toBase64(s), '=')) == s)
    && (forall s, c :: c in p.toBase64(s) ==> IsBase64Char(c) || c == '=')
    && (forall key, m :: |p.hmacBase64(key, m)| == 44 && p.hmacBase64(key, m)[43] == '='
          && forall i :: 0 <= i < 43 ==> IsBase64Char(p.hmacBase64(key, m)[i]))
  }

  /** `Buffer.from(JSON.stringify(v)).toString('base64').replace(/=/g, '')` */
  function Encode(p: Primitives, v: Value): (r: string)
    ensures '=' !in r
    ensures Lawful(p) ==> p.fromBase64(r) == p.stringify(v)
  {
    Remove(p.toBase64(p.stringify(v)), '=')
  }

  /** `{ alg: 'HS256', typ: 'JWT' }` */
  const Header: Value := Obj([("alg", Str("HS256")), ("typ", Str("JWT"))])

  /** The `=`-stripped base64 HMAC of `header.payload` under the secret. */
  function Signature(p: Primitives, encodedHeader: string, encodedPayload: string): (r: string)
    ensures '=' !in r
  {
    Remove(p.hmacBase64(JwtSecret, encodedHeader + "." + encodedPayload), '=')
  }

  /** `generateToken(payload)` */
  function GenerateToken(p: Primitives, payload: Value): (r: string)
    ensures '=' !in r
    ensures StartsWith(r, Encode(p, Header) + "." + Encode(p, payload) + ".")
  {
    var encodedHeader := Encode(p, Header);
    var encodedPayload := Encode(p, payload);
    encodedHeader + "." + encodedPayload + "." + Signature(p, encodedHeader, encodedPayload)
  }

  /** `verifyToken(token)`: `Null` stands for the `null` it returns. Fewer than
      three parts leave the signature `undefined`, which no string equals; the
      header is never read; a payload that is not JSON makes `JSON.parse` throw,
      which is caught. */
  function VerifyToken(p: Primitives, token: string): (r: Value)
    ensures r != Null ==> |Split(token, '.')| >= 3
    ensures r != Null ==> var parts := Split(token, '.');
      parts[2] == Signature(p, parts[0], parts[1]) && p.parse(p.fromBase64(parts[1])) == Some(r)
  {
    var parts := Split(token, '.');
    if |parts| < 3 then Null
    else if parts[2] != Signature(p, parts[0], parts[1]) then Null
    else match p.parse(p.fromBase64(parts[1]))
      case None => Null
      case Some(payload) => payload
  }

  /** The characters of an `=`-stripped encoding are all in the alphabet. */
  lemma EncodeInAlphabet(p: Primitives, v: Value)
    requires Lawful(p)
    ensures forall i :: 0 <= i < |Encode(p, v)| ==> IsBase64Char(Encode(p, v)[i])
  {
    var b := p.toBase64(p.stringify(v));
    var e := Encode(p, v);
    forall i | 0 <= i < |e|
      ensures IsBase64Char(e[i])
    {
      assert e[i] in e;
    }
  }

  /** A signature is the 43 alphabet characters of the digest. */
  lemma SignatureShape(p: Primitives, encodedHeader: string, encodedPayload: string)
    requires Lawful(p)
    ensures var s := Signature(p, encodedHeader, encodedPayload);
      |s| == 43 && forall i :: 0 <= i < 43 ==> IsBase64Char(s[i])
  {
    var d := p.hmacBase64(JwtSecret, encodedHeader + "." + encodedPayload);
    assert d == d[..43] + ['='];
    assert forall i :: 0 <= i < 43 ==> d[..43][i] != '=';
    RemoveAbsent(d[..43], '=');
    RemoveConcat(d[..43], ['='], '=');
    assert Remove(['='], '=') == "";
  }

  /** A generated token splits into exactly three parts: the encoded header,
      the encoded payload and the signature over the two. */
  lemma TokenParts(p: Primitives, payload: Value)
    requires Lawful(p)
    ensures var h, b := Encode(p, Header), Encode(p, payload);
      Split(GenerateToken(p, payload), '.') == [h, b, Signature(p, h, b)]
  {
    var h, b := Encode(p, Header), Encode(p, payload);
    var s := Signature(p, h, b);
    EncodeInAlphabet(p, Header);
    EncodeInAlphabet(p, payload);
    SignatureShape(p, h, b);
    assert '.' !in h && '.' !in b && '.' !in s;
    SplitThree(h, b, s, '.');
  }

  /** Round trip: a JSON payload signed by `generateToken` is what `verifyToken` returns. */
  lemma VerifyGenerated(p: Primitives, payload: Value)
    requires Lawful(p) && IsJson(payload)
    ensures VerifyToken(p, GenerateToken(p, payload)) == payload
  {
    TokenParts(p, payload);
  }

  /** Fewer than three parts, or a third part other than the recomputed
      signature (an empty one included), is always refused. */
  lemma BadSignatureRefused(p: Primitives, token: string)
    requires Lawful(p)
    requires var parts := Split(token, '.');
      |parts| < 3 || parts[2] == "" || parts[2] != Signature(p, parts[0], parts[1])
    ensures VerifyToken(p, token) == Null
  {
    var parts := Split(token, '.');
    if |parts| >= 3 {
      SignatureShape(p, parts[0], parts[1]);
    }
  }

  /** Only the first three parts are read: anything after a third `.` is ignored. */
  lemma ExtraPartsIgnored(p: Primitives, token: string, extra: string)
    requires |Split(token, '.')| >= 3
    ensures VerifyToken(p, token + "." + extra) == VerifyToken(p, token)
  {
    SplitConcat(token, '.', extra);
  }

  /** A token whose header or payload differs from the ones a signature was made
      for is accepted only if the digest of a different input collides with it:
      the `alg` field, like the rest of the header, gives no way around the check. */
  lemma ForgeryNeedsCollision(p: Primitives, h: string, b: string, h2: string, b2: string)
    requires Lawful(p)
    requires '.' !in h && '.' !in b && '.' !in h2 && '.' !in b2
    requires (h2, b2) != (h, b)
    requires VerifyToken(p, h2 + "." + b2 + "." + Signature(p, h, b)) != Null
    ensures h2 + "." + b2 != h + "." + b
    ensures Signature(p, h2, b2) == Signature(p, h, b)
  {
    SignatureShape(p, h, b);
    var s := Signature(p, h, b);
    assert '.' !in s;
    SplitThree(h2, b2, s, '.');
    SplitTwo(h2, b2, '.');
    SplitTwo(h, b, '.');
  }

  /** `{ userId: user.id, email: user.email }` */
  function PayloadFor(u: User): (v: Value)
    ensures Get(v, "userId") == Num(u.id) && Get(v, "email") == u.email
  {
    var fields := [("userId", Num(u.id)), ("email", u.email)];
    assert fields[..1] == [("userId", Num(u.id))];
    assert fields[1].0 != "userId" by { assert |fields[1].0| != |"userId"|; }
    assert Lookup(fields[..1], "userId") == Num(u.id);
    Obj(fields)
  }

  /** `registerUser`: creates the user, then signs `{userId, email}` for it. */
  method RegisterUser(store: UserStore, p: Primitives, email: Value, password: Value, createdAt: string)
    returns (r: Result<(User, string)>)
    requires store.Valid()
    modifies store
    ensures store.Valid()
    ensures old(store.FindUserByEmail(email)).Some? ==>
      r == Err(DuplicateEmailError) && store.users == old(store.users) && store.nextId == old(store.nextId)
    ensures old(store.FindUserByEmail(email)).None? ==>
      var u := User(old(store.nextId), email, password, createdAt);
      && store.users == old(store.users) + [u]
      && store.nextId == old(store.nextId) + 1
      && r == Ok((WithoutPassword(u), GenerateToken(p, PayloadFor(u))))
  {
    var created := store.CreateUser(email, password, createdAt);
    match created
    case Err(message) => r := Err(message);
    case Ok(user) => r := Ok((user, GenerateToken(p, PayloadFor(user))));
  }

  /** `loginUser({email, password})`: an unknown email or a password that is not
      `===` to the stored one is refused; otherwise the stored user, without its
      password, and a token for it. */
  function LoginUser(store: UserStore, p: Primitives, email: Value, password: Value): (r: Result<(User, string)>)
    reads store
    ensures r.Err? <==> store.FindUserByEmail(email).None? || !StrictEquals(store.FindUserByEmail(email).value.password, password)
    ensures r.Err? ==> r.message == InvalidCredentials
    ensures r.Ok? ==>
      exists k :: 0 <= k < |store.users| && store.users[k] == store.FindUserByEmail(email).value
        && r.value == (WithoutPassword(store.users[k]), GenerateToken(p, PayloadFor(store.users[k])))
  {
    match store.FindUserByEmail(email)
    case None => Err(InvalidCredentials)
    case Some(user) =>
      if !StrictEquals(user.password, password) then Err(InvalidCredentials)
      else Ok((WithoutPassword(user), GenerateToken(p, PayloadFor(user))))
  }

  /** `getUserFromToken`: nothing when the token is refused, when its payload
      has no truthy `userId`, or when no user has that id; otherwise the user
      without its password. `Err` is the `TypeError` `Number(userId)` throws,
      which passes through. */
  function GetUserFromToken(store: UserStore, p: Primitives, token: string): (r: Result<Option<User>>)
    reads store
    ensures !Truthy(VerifyToken(p, token)) || !Truthy(Get(VerifyToken(p, token), "userId")) ==> r == Ok(None)
    ensures Truthy(VerifyToken(p, token)) && Truthy(Get(VerifyToken(p, token), "userId")) ==>
      (r.Err? <==> store.FindUserById(Get(VerifyToken(p, token), "userId")).Err?)
    ensures r.Err? ==> r.message == ConversionError
    ensures r.Ok? && r.value.Some? ==> r.value.value.password == Undefined
    ensures r.Ok? && r.value.Some? ==>
      exists k :: 0 <= k < |store.users| && r.value.value == WithoutPassword(store.users[k])
        && ToNumber(Get(VerifyToken(p, token), "userId")) == Ok(Finite(store.users[k].id as real))
    ensures Truthy(VerifyToken(p, token)) && Truthy(Get(VerifyToken(p, token), "userId")) ==>
      forall k :: 0 <= k < |store.users| && store.FindUserById(Get(VerifyToken(p, token), "userId")) == Ok(Some(store.users[k]))
        ==> r == Ok(Some(WithoutPassword(store.users[k])))
  {
    var payload := VerifyToken(p, token);
    if !Truthy(payload) || !Truthy(Get(payload, "userId")) then Ok(None)
    else match store.FindUserById(Get(payload, "userId"))
      case Err(message) => Err(message)
      case Ok(None) => Ok(None)
      case Ok(Some(user)) => Ok(Some(WithoutPassword(user)))
  }

  /** A token handed out at login identifies the same user again, provided
      the email is one JSON can carry. */
  lemma LoginTokenIdentifiesUser(store: UserStore, p: Primitives, email: Value, password: Value)
    requires store.Valid() && Lawful(p)
    requires LoginUser(store, p, email, password).Ok?
    requires IsJson(store.FindUserByEmail(email).value.email)
    ensures var (user, token) := LoginUser(store, p, email, password).value;
      GetUserFromToken(store, p, token) == Ok(Some(user))
  {
    var stored := store.FindUserByEmail(email).value;
    var k :| 0 <= k < |store.users| && store.users[k] == stored;
    TokenOfStoredUser(store, p, k);
  }

  /** The token generated for a stored user's payload leads back to that user. */
  lemma TokenOfStoredUser(store: UserStore, p: Primitives, k: nat)
    requires store.Valid() && Lawful(p) && k < |store.users| && IsJson(store.users[k].email)
    ensures GetUserFromToken(store, p, GenerateToken(p, PayloadFor(store.users[k])))
      == Ok(Some(WithoutPassword(store.users[k])))
  {
    var stored := store.users[k];
    var payload := PayloadFor(stored);
    var token := GenerateToken(p, payload);
    assert IsJson(payload);
    VerifyGenerated(p, payload);
    assert Get(VerifyToken(p, token), "userId") == Num(stored.id) && stored.id >= 1;
    FindByIdOfStored(store, k, Num(stored.id));
  }
}
