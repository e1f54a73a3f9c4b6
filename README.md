# SimpleChat backend in Dafny

A model of the server side of SimpleChat, a small chat application whose
backend keeps everything in memory. Its parts:

- **A rule-based assistant.** A per-user conversation memory capped at ten turns, a
  first-match-wins keyword cascade that picks a reply, and a word-overlap score that
  notices when the user repeats themselves (`aiService.js`).
- **Three append-only stores.** The chat log (`messageService.js`), the user table with
  unique emails and a counter id (`userModel.js`), and the form-submission store
  (`dataService.js`).
- **A hand-rolled signed token.** It has the shape of a JSON Web Token,
  `header.payload.signature` (section 3 of RFC 7519, section 7.1 of RFC 7515). Each part
  is standard base64 (section 4 of RFC 4648) with its `=` padding stripped. The signature
  is an HMAC-SHA256 (RFC 2104) over `header.payload`. The `authenticate` middleware reads
  the token from a `Bearer` header (`authService.js`, `authMiddleware.js`).
- **The Socket.io event handlers.** Connect, `send_message`, `typing` and disconnect over
  a registry of connected sockets and the shared log. The bot's delayed echo is modelled
  as an explicit queue (`socket.js`).
- **The HTTP controllers.** They map request fields and service outcomes to a status and
  a body (`controllers/*.js`).

## Files and modules

Each file holds one module:

- `wrappers.dfy` (`Wrappers`): `Option`, `Result`.
- `seqs.dfy` (`Seqs`): `find` and `filter`.
- `strings.dfy` (`Strings`): `toLowerCase`, `startsWith`, `includes`, `split`, `split(/\s+/)`, `replace(/=/g, '')`.
- `js_value.dfy` (`JsValue`): JavaScript values and the operators the code applies to them: truthiness, `===`, property access, `Number()`, `parseInt(s, 10)`.
- `ai_service.dfy` (`AiService`).
- `message_service.dfy` (`MessageService`).
- `user_model.dfy` (`UserModel`).
- `data_service.dfy` (`DataService`).
- `auth_service.dfy` (`AuthService`).
- `auth_middleware.dfy` (`AuthMiddleware`).
- `socket.dfy` (`Socket`).
- `http.dfy` (`Http`): the response shape shared by the controllers.
- `message_controller.dfy`, `user_controller.dfy`, `data_controller.dfy`: one module per controller.

## How the model is built

- **State.** What the source mutates in place is a class whose fields the methods
  reassign. The history map, the user table, the form store, and the socket registry
  with its outbox each keep a `Valid()` invariant. The message log needs none: any
  sequence of messages is a valid log. Queries over that state are functions that `reads` it.
- **Pure code.** The cascade, the similarity score, the token codec and the controllers'
  decisions are functions, with lemmas relating them.
- **Nondeterminism.** The clock and `Math.random()` are parameters:
  - `utcNow` is the UTC date string.
  - `pick` is the index of the default reply.
  - `id` and `now` are a message's id and timestamp.
  - `createdAt` is a user's or an entry's ISO timestamp.
- **Foreign primitives.** JSON, base64 and the HMAC are the function-valued fields of
  `AuthService.Primitives`. Everything the proofs assume about them is the predicate
  `AuthService.Lawful`, which is only ever a `requires` of lemmas:
  - JSON parses back what it wrote;
  - base64 decodes what it encoded, even with the padding removed;
  - encodings use only the base64 alphabet and `=`;
  - a digest is 43 alphabet characters followed by one `=`.
- **Exceptions.** A thrown exception is a value:
  - `Err` from a store, and from `Number()` for the `TypeError` it throws on an object with its own `toString`;
  - `Forward` from a controller, which stands for `next(error)`;
  - `Throws` for a socket payload;
  - `Null` from `verifyToken`.

## Model

| member | source | states |
|---|---|---|
| AiService.TurnFor | backend/services/aiService.js:36-39 | the stored role is the user's exactly when the sender is `'user'`, and the text is stored unchanged |
| AiService.Push | backend/services/aiService.js:35-44 | one push-then-shift step on a history of at most ten turns yields the ten most recent turns, so the cap is kept |
| AiService.PushAllKeepsMostRecent | backend/services/aiService.js:32-47 | after any sequence of recorded turns, the history is exactly the ten most recent turns, oldest first |
| AiService.FifteenTurnsKeepLastTen | backend/services/aiService.js:42-44 | fifteen turns recorded into an empty history leave turns 6 to 15 |
| AiService.PushTwoEndsWith | backend/services/aiService.js:76-86 | recording two turns leaves them as the last two entries, in order, even when the oldest entries are evicted |
| AiService.ConversationMemory.AddToHistory | backend/services/aiService.js:32-47 | appends the turn and drops the oldest if there are then eleven; no history exceeds ten; every other user's history is unchanged |
| AiService.ConversationMemory.InitUserHistory | backend/services/aiService.js:20-24 | a user not seen before gets an empty history; an existing one is left alone |
| AiService.ConversationMemory.GetUserHistory | backend/services/aiService.js:54-57 | returns the user's history, which is empty for a user not seen before, and creates the entry |
| AiService.ConversationMemory.ClearHistory | backend/services/aiService.js:63-65 | the user's history becomes empty; the others are unchanged |
| AiService.ConversationMemory.GenerateResponse | backend/services/aiService.js:73-88 | records the user turn, computes the reply from the history that now ends with it, and records the reply as an assistant turn; the history then ends with exactly these two |
| AiService.AnswerQuestion | backend/services/aiService.js:127-138 | a message with `?` gets a fixed reply or the reply that embeds the current UTC time |
| AiService.SimulateResponse | backend/services/aiService.js:102-156 | every reply is one of the fixed replies, one of the five defaults, or the time reply |
| AiService.ReplyIgnoresCase | backend/services/aiService.js:104 | the reply depends on the message only through its lower-cased form |
| AiService.KeywordRepliesAreDeterministic | backend/services/aiService.js:107-138 | when a keyword rule fires, the random choice has no effect on the reply |
| AiService.FallbackIsADefaultPrompt | backend/services/aiService.js:146-155 | when no keyword rule fires and the history check does not fire, the reply is one of the five default prompts |
| AiService.HistoryQuestionIsGreeted | backend/services/aiService.js:107-109 | the greeting test is a bare prefix test that wins over the `?` rule: "history?" contains `?` yet gets the greeting |
| AiService.GreetingWins | backend/services/aiService.js:104-109 | a message whose lower-cased form is a greeting gets the greeting reply, whatever else it contains, whatever the history and the random pick |
| AiService.IdentityBeatsHelp | backend/services/aiService.js:111-119 | an ungreeted message asking who or what the bot is gets the identity reply, never the help reply, even when it also asks for help |
| AiService.ThanksBeatsQuestion | backend/services/aiService.js:121-139 | an ungreeted message that matches the thanks rule and neither the identity nor the help rule gets "You're welcome!", never any answer of the `?` rule |
| AiService.HelpBeatsThanks | backend/services/aiService.js:116-124 | a message that matches the help rule and neither earlier rule gets the help reply, never the thanks reply |
| AiService.ThankYouForYourHelpGetsHelpReply | backend/services/aiService.js:111-124 | "thank you for your help" matches the thanks rule but gets the help reply, not the "You're welcome!" one |
| AiService.WordSet | backend/services/aiService.js:196-197 | the set of `split(/\s+/)` pieces is never empty, so the score's denominator is positive |
| AiService.CountCommonWords | backend/services/aiService.js:199-202 | the loop counts exactly the words the two sets share |
| AiService.StringSimilarity | backend/services/aiService.js:194-205 | the score equals shared words over the larger set size and lies in [0, 1] |
| AiService.Similarity | backend/services/aiService.js:194-205 | the score lies in [0, 1] |
| AiService.SimilaritySymmetric | backend/services/aiService.js:194-205 | the score does not depend on the order of its arguments |
| AiService.SimilarityOfSame | backend/services/aiService.js:194-205 | a string scores 1 against itself |
| AiService.SimilarEnoughIff | backend/services/aiService.js:175-183 | a score above 0.7 holds exactly when 10 times the shared count exceeds 7 times the larger size |
| AiService.CheckContext | backend/services/aiService.js:163-186 | the repeat reply is the only reply it ever gives, and never with fewer than three turns |
| AiService.RepeatDetectedIff | backend/services/aiService.js:163-183 | after a user turn, a reply and a second user turn, the repeat reply fires exactly when the two lower-cased user messages score above 0.7 |
| AiService.SameMessageTwiceIsNoticed | backend/services/aiService.js:140-183 | repeating a message that no keyword rule matches draws the repeat reply |
| MessageService.Welcome | backend/services/messageService.js:4-12 | the initial message is the welcome text from sender and user `'bot'` |
| MessageService.MessageLog.constructor | backend/services/messageService.js:4-12 | the log starts with exactly the welcome message |
| MessageService.FindById | backend/services/messageService.js:35-38 | the result is the earliest message whose id is the `parseInt` of the argument; nothing when the argument is not numeric or no id matches |
| MessageService.MessageLog.GetMessageById | backend/services/messageService.js:35-38 | a found message is in the log and carries the parsed id; when nothing is found, no message carries that id |
| MessageService.MessageLog.GetAllMessages | backend/services/messageService.js:26-28 | the whole log, in insertion order |
| MessageService.MessageLog.CreateMessage | backend/services/messageService.js:48-61 | appends exactly one message carrying the given fields, at the end, and returns it; earlier entries are unchanged |
| MessageService.MessageLog.ClearMessages | backend/services/messageService.js:66-69 | the log becomes empty |
| MessageService.AppendedMessageIsFound | backend/services/messageService.js:35-38 | a message appended under a fresh id is found by that id's decimal form, even with non-digit text after it |
| MessageService.FoundStaysFound | backend/services/messageService.js:18-38 | when ids collide, appending never changes which message an id finds: the earliest one |
| MessageService.NonNumericIdFindsNothing | backend/services/messageService.js:36-37 | an argument that does not start with a sign, a space or a digit finds nothing |
| UserModel.WithoutPassword | backend/models/userModel.js:33 | the copy has no password and keeps the id, the email and the creation time |
| UserModel.UserStore.constructor | backend/models/userModel.js:7-8 | the table starts empty with the counter at 1 |
| UserModel.UserStore.CreateUser | backend/models/userModel.js:15-34 | a duplicate email is refused with the source's message and nothing changes; otherwise one user is appended under the old counter, the counter goes up by one, the user is returned without its password, and ids stay increasing and emails unique |
| UserModel.UserStore.FindUserByEmail | backend/models/userModel.js:41-43 | a found user is stored and has an email `===` to the argument; nothing is found only when no stored email is |
| UserModel.UserStore.FindUserById | backend/models/userModel.js:50-52 | the lookup throws exactly when there is a stored user and `Number(id)` throws; a found user is stored and its id is `Number(id)`; when nothing is found, no stored id is `Number(id)` |
| UserModel.UserStore.GetAllUsers | backend/models/userModel.js:58-60 | the same count and order as the table, each entry without its password |
| UserModel.FindByIdOfStored | backend/models/userModel.js:50-52 | since ids increase, any argument whose `Number` is a stored user's id finds exactly that user |
| UserModel.CreatedUserIsFoundByEmail | backend/models/userModel.js:15-43 | after a successful creation, the email finds the new user with its password |
| DataService.DataStore.ProcessFormData | backend/services/dataService.js:15-37 | a falsy title or content is refused with the source's message and nothing changes; otherwise one processed entry owned by `userId` is appended under the old counter, which goes up by one, and that very entry is returned |
| DataService.DataStore.GetUserData | backend/services/dataService.js:44-46 | exactly the entries whose owner is `===` to the argument |
| DataService.DataStore.GetDataById | backend/services/dataService.js:53-55 | the lookup throws exactly when there is a stored entry and `Number(id)` throws; a found entry is stored and its id is `Number(id)`; when nothing is found, no entry has that id |
| DataService.SubmissionListedForOwnerOnly | backend/services/dataService.js:44-46 | a new entry is added at the end of its owner's listing and to no other listing |
| DataService.FindByIdOfStored | backend/services/dataService.js:53-55 | any argument whose `Number` is a stored entry's id finds exactly that entry |
| AuthService.Encode | backend/services/authService.js:16-17 | an encoded part holds no `=`, and base64 decoding gives back the JSON text |
| AuthService.Signature | backend/services/authService.js:19-23 | a signature holds no `=` |
| AuthService.GenerateToken | backend/services/authService.js:12-26 | a token holds no `=` and starts with the encoded header and payload, each followed by `.` |
| AuthService.TokenParts | backend/services/authService.js:12-25 | a token splits on `.` into exactly the encoded header, the encoded payload and the signature over the two |
| AuthService.SignatureShape | backend/services/authService.js:19-23 | a signature is 43 base64 characters, so it is never empty |
| AuthService.VerifyToken | backend/services/authService.js:32-52 | the result is not `null` only when there are at least three parts and the third is the recomputed signature, and then it is the parsed payload |
| AuthService.VerifyGenerated | backend/services/authService.js:12-52 | round trip: verifying a generated token yields the signed JSON payload |
| AuthService.BadSignatureRefused | backend/services/authService.js:35-45 | fewer than three parts, an empty third part, or one other than the recomputed signature gives `null` |
| AuthService.ExtraPartsIgnored | backend/services/authService.js:33-45 | text after a third `.` has no effect on the result |
| AuthService.ForgeryNeedsCollision | backend/services/authService.js:37-45 | a token that changes the header (its `alg` included) or the payload passes only if the digest of a different signed input collides with the original |
| AuthService.PayloadFor | backend/services/authService.js:59-61 | the signed payload's `userId` and `email` are the user's |
| AuthService.RegisterUser | backend/services/authService.js:59-64 | creates the user as the table does and returns it with a token for `{userId, email}`; a duplicate email is refused and nothing changes |
| AuthService.LoginUser | backend/services/authService.js:71-81 | refused with "Invalid credentials" exactly when the email is unknown or the password is not `===` the stored one; otherwise the stored user without its password, and that user's token |
| AuthService.GetUserFromToken | backend/services/authService.js:88-100 | nothing for a refused token or a falsy `userId`; otherwise it throws exactly when the lookup throws, and a user the lookup finds is returned without its password; a returned user is stored and its id is the `Number` of the payload's `userId` |
| AuthService.TokenOfStoredUser | backend/services/authService.js:88-100 | the token generated for a stored user's payload leads back to that user, without its password |
| AuthService.LoginTokenIdentifiesUser | backend/services/authService.js:71-100 | the token handed out at login leads back to the same user |
| AuthMiddleware.Authenticate | backend/middleware/authMiddleware.js:8-30 | every refusal is 401; "Authentication required" exactly when the header is absent or lacks the `Bearer ` prefix; otherwise, for the second space-separated field, "Authentication failed" exactly when the user lookup throws, "Invalid or expired token" exactly when it finds nobody, and passing on with the user it finds |
| AuthMiddleware.TokenIsSecondField | backend/middleware/authMiddleware.js:16-28 | `Bearer a b` is decided exactly like `Bearer a`: "Authentication failed" when the lookup throws, invalid or expired when the token finds no user, passed on with that user otherwise |
| AuthMiddleware.ThrowingUserIdIsCaught | backend/middleware/authMiddleware.js:17-28 | a verified `userId` that is an object with its own `toString` makes the lookup throw once a user is stored, and the request is refused with 401 "Authentication failed" |
| AuthMiddleware.TokenHasNoSpace | backend/services/authService.js:25 | a generated token contains no space, so it survives the header split |
| AuthMiddleware.LoginTokenAuthenticates | backend/middleware/authMiddleware.js:11-25 | a login token sent back as `Bearer <token>` lets the request through with the logged-in user |
| Socket.ClassifySend | backend/socket.js:30-63 | a `null` or `undefined` payload throws; otherwise the payload is refused exactly when `text` is not a non-empty string; an accepted text is the payload's `text` |
| Socket.EchoText | backend/socket.js:53 | the echo is the fixed prefix, the text, then a closing quote |
| Socket.ChatServer.constructor | backend/socket.js:8-10 | an empty registry, no events, no scheduled echoes |
| Socket.ChatServer.Connect | backend/socket.js:12-27 | registers the socket as connected, then sends it alone the acknowledgement and the whole log |
| Socket.UserMessageKeepsEchoes | backend/socket.js:41-58 | appending a user message and scheduling its echo keeps every echo answering, in order, the user message it follows |
| Socket.EchoKeepsEchoes | backend/socket.js:51-58 | running the oldest scheduled echo keeps every echo answering, in order, the user message it follows |
| Socket.ChatServer.SendMessage | backend/socket.js:30-63 | a throwing or refused payload sends the sender alone the matching error and changes nothing else; an accepted one appends one user message from this socket, sends it to every connected socket, the sender included, and schedules its echo; the echo invariant is kept |
| Socket.ChatServer.FireReply | backend/socket.js:51-59 | the oldest scheduled echo appends one bot message quoting that text and sends it to every socket connected now, whether or not the sender still is; the i-th echo answers the i-th user message and follows it |
| Socket.ChatServer.Typing | backend/socket.js:67-72 | every other connected socket, and never the sender, gets this socket's `isTyping`; the registry, the log and the scheduled echoes are unchanged |
| Socket.ChatServer.Disconnect | backend/socket.js:75-79 | only this socket leaves the registry, and the sockets still connected are told |
| MessageController.GetAllMessages | backend/controllers/messageController.js:10-18 | 200 with the whole log |
| MessageController.GetMessageById | backend/controllers/messageController.js:26-36 | 404 with "Message not found" exactly when the service finds nothing for the raw id; otherwise 200 with the found message |
| MessageController.CreateMessage | backend/controllers/messageController.js:48-63 | a falsy `text` or `sender` gives 400 and creates nothing; otherwise exactly `{text, sender, userId}` is stored and returned with 201 |
| MessageController.CreatedMessageIsServed | backend/controllers/messageController.js:26-35 | a message created under a fresh id is served by `GET` on that id |
| UserController.Signup | backend/controllers/userController.js:11-33 | a missing email or password gives 400 and registers nothing; a duplicate gives 409 with the store's message; otherwise 201 with the new user and its token, and the id counter moves on by one; every refusal leaves users and counter alone |
| UserController.Login | backend/controllers/userController.js:41-63 | 400 exactly for a missing email or password; 401 with "Invalid credentials" for refused credentials; otherwise 200 with the user, without its password, and a token |
| UserController.GetCurrentUser | backend/controllers/userController.js:71-79 | behind `authenticate`, 200 with exactly the user the middleware attached, which carries no password; otherwise the middleware's 401 with its message |
| UserController.SignupThenLogin | backend/controllers/userController.js:21-53 | logging in with the credentials just signed up with returns the same user and the same token |
| UserController.SecondSignupConflicts | backend/controllers/userController.js:27-29 | an email already stored is found, so a second signup with it is a conflict |
| DataController.SubmitFormData | backend/controllers/dataController.js:10-32 | a falsy title or content gives 400 and stores nothing; otherwise the entry is stored under the authenticated user's id, never one from the body, the id counter moves on by one, and only id, title and status come back with 200; every refusal leaves entries and counter alone |
| DataController.GetUserData | backend/controllers/dataController.js:40-50 | 200 with exactly the authenticated user's entries |
| DataController.SubmissionShowsUpForSubmitter | backend/controllers/dataController.js:10-50 | a submission comes last in its submitter's listing and does not appear in another user's |
| JsValue.ParseInt10 | backend/services/messageService.js:36 | after leading white space and an optional sign, a number comes back exactly when a digit follows, and its sign is the written one |
| JsValue.ParseIntOfDecimal | backend/services/messageService.js:36 | `parseInt` reads back a decimal id and ignores whatever follows its last digit |
| JsValue.ToNumber | backend/models/userModel.js:51 | only an array or an object can make `Number` throw, with the conversion `TypeError`; a number is itself, `undefined` is NaN, and a string is read by the string grammar |
| JsValue.NumberOfDecimal | backend/models/userModel.js:51 | `Number` reads back the decimal form of an id |
| JsValue.StringToNumberOfDigits | backend/models/userModel.js:51 | a run of decimal digits is read as its value |
| JsValue.IdWithZeroFraction | backend/models/userModel.js:51 | an id written with a `.0` fraction is still that id |
| JsValue.RadixRead | backend/models/userModel.js:51 | after `0x`, `0o` or `0b`, digits of that base are read in that base |
| JsValue.SignedRadixIsNaN | backend/models/userModel.js:51 | a sign before a radix prefix gives NaN |
| JsValue.NonNumericStart | backend/models/userModel.js:51 | a trimmed string starting with a character that cannot begin a number is NaN |
| JsValue.ArrayOfOneId | backend/models/userModel.js:51 | an array holding one id converts to that id |
| JsValue.ArrayOfOneText | backend/models/userModel.js:51 | an array holding one string converts like the string, and the empty array is 0 |
| JsValue.ObjectConversion | backend/models/userModel.js:51 | an object with its own `toString` makes `Number` throw, alone or inside an array; a plain object is NaN |
| Seqs.FirstWhereAppend | backend/services/messageService.js:37 | `find` on an extended array: an earlier match still wins |
| Seqs.FilterConcat | backend/services/dataService.js:45 | `filter` keeps the original order across an append |
| Strings.JoinSplit | backend/services/authService.js:35 | splitting and joining on the separator gives the original string back |
| Strings.SplitJoin | backend/services/authService.js:25-35 | pieces without the separator, joined and split again, come back unchanged |

## Left out

- **I/O and transport.** Logging, `console.log`, the Express and Socket.io plumbing and
  route mounting are not modelled. Socket events are recorded in an outbox rather than
  delivered, and the 1000 ms `setTimeout` delay is not modelled. Each scheduled echo is
  a separate `FireReply` step, taken in scheduling order.
- **The echo invariant and the shared log.** The invariant is stated over the messages
  the socket handlers themselves appended (`trace`). The same log is also written by the
  HTTP `createMessage` route and emptied by `clearMessages`. The invariant therefore says
  nothing about positions relative to messages written by other code.
- **Aliasing.** `getAllMessages`, `getUserHistory` and the `message_history` event return
  the live array. Here they are values, so later changes by a caller to the returned
  array are not modelled.
- **Numbers and strings.**
  - `Number()` follows the string grammar of the language: trimming, `""` as 0,
    the `0x`, `0o` and `0b` prefixes, signs, fractions, exponents and `Infinity`.
    A finite result is the exact value of the literal. Rounding to a 64-bit double is
    not modelled, so two literals that round to the same double, such as
    `"9007199254740993"` and `"9007199254740992"`, are different numbers here.
  - Values from a request are JSON values. Their numbers are integers, so floats in
    stored or sent values are not modelled.
  - `toLowerCase`, `\s` and the white space `Number()` trims cover ASCII only.
  - Ids are naturals.
- **Time values.** Timestamps are opaque integers and ISO strings. The UTC time string in
  the time reply is a parameter.
- **Undeclared uniqueness.** Message ids are `Date.now()` plus a random number below
  1000, and may collide. No uniqueness is claimed; lookups are proved to return the
  earliest match.
- **The primitives.** JSON, base64 and HMAC-SHA256 are not modelled bit by bit.
  - Only the laws listed under `AuthService.Lawful` are used.
  - Payloads are assumed to be JSON-representable where the round trip is claimed.
  - A lenient base64 decoder fed garbage is just an arbitrary function here.
- **AiService.ConversationMemory.GenerateResponse.** Its `catch`, which returns an
  apology string, is not modelled. In the source it is reachable: `addToHistory` is
  exported, and a user turn (sender `'user'`) stored through it with a missing or
  non-string `text` makes `toLowerCase` throw in `checkContextForResponse`. Only user
  turns get there: line 171 of `backend/services/aiService.js` keeps the turns whose
  role is `'user'`, and line 172 lower-cases their content. The throw comes once such a
  turn is among the last three. The `catch` runs after the new user turn has been
  recorded, so the history keeps that turn with no reply after it. Here every stored
  turn's content is a string, so nothing on this path can throw.
- **AiService.ConversationMemory.GenerateResponse** is one atomic step here. In the
  source, the `await` at `backend/services/aiService.js:83` lets two calls for the same
  user interleave between recording the user turn and recording the reply. Nothing in
  the backend calls `generateResponse`. Its ensures that the history ends with exactly
  the user turn and the reply therefore holds only for callers that await each call
  before making the next.
- **AiService.ConversationMemory.AddToHistory.** It takes the message's text as a string.
  The source stores `message.text` whatever it is, including `undefined`; such turns are
  not modelled.
- **Downstream errors.** `next()` in `authenticate` runs inside its `try`, so an error
  thrown synchronously by the next handler would also get 401 "Authentication failed".
  The handlers after it are separate members here, so this is not modelled.
- **UserController.Signup.** It does not model the `next(error)` fallback for errors
  other than the duplicate email, because the modelled registration raises no other error.
- **UserController.Login.** It does not model the `next(error)` fallback for errors
  other than "Invalid credentials", because the modelled login raises no other error.
- **Request bodies.** A `null` or `undefined` body makes a controller's destructuring
  throw, which `next(error)` receives. That is `Forward(DestructureError)`; the exact
  `TypeError` text is not modelled.
- **Service arguments.**
  - `createUser` and `processFormData` receive the already destructured fields: every
    caller passes an object literal.
  - `verifyToken` takes a string: every caller passes one.
- **Socket.ChatServer.Typing.** With a `null` or `undefined` payload the handler throws
  and nothing is sent. What Socket.io does with the uncaught exception is not modelled.
  Like `SendMessage`, it requires that the socket is connected: Socket.io delivers events
  only from connected sockets.
- **Registry and recipients.** The registry and the set of sockets Socket.io broadcasts
  to are taken to be the same set, since the handlers add and remove ids exactly on
  connect and disconnect.
- **What the tests expect but the code lacks.** None of these is in the model, because
  the code has none of them:
  - the `toggle_bot` and `bot_status` events;
  - `botEnabled` in the acknowledgement;
  - a bot typing indicator;
  - AI replies over the socket;
  - rejection of invalid tokens on socket connect;
  - input sanitisation.
- **Where the tests disagree with the code.** The model follows the code in both cases:
  - `backend/tests/aiService.test.js:58-59` expects "welcome" for "thank you for your
    help". The code answers with the help reply (`AiService.ThankYouForYourHelpGetsHelpReply`).
  - `test/integration/e2e/user-flow.test.js:44` expects 200 from signup. The code answers
    201 (`UserController.Signup`).
- **The React frontend and the client wrappers.** These are not part of this model.
