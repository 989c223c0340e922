# TaskSync credential and token lifecycle, in Dafny

This project models the part of the TaskSync account backend that handles
credentials and tokens:

- token issuance: 16 random bytes, written in unpadded RFC 4648 base32, of
  which only the SHA-256 digest is stored with owner, scope and expiry;
- the "tokens" collection: insert, lookup by digest, scope and unexpired
  expiry, and bulk deletion of one user's tokens of one scope;
- user validation (`ValidateUser`) and the user insert, which stamps the
  record in place;
- the registration handler and the authentication-token handler, each
  reduced to a decision flow that ends in exactly one response.

Files and modules:

| file | module | models |
|---|---|---|
| wrappers.dfy | Wrappers | `Option`, `Result` |
| primitives.dfy | Primitives | bytes, object ids, time, the error values |
| validator.dfy | Validator | the request validator: a field-to-message map, first message wins |
| base32.dfy | Base32 | unpadded base32 (RFC 4648 section 6 alphabet) and a reference decoder |
| tokens.dfy | Tokens | internal/data/tokens.go |
| users.dfy | Users | internal/data/users.go and the in-memory "users" collection |
| responses.dfy | Responses | the response helpers the handlers call |
| users_handler.dfy | UsersHandler | cmd/api/users.go, `registerUserHandler` |
| tokens_handler.dfy | TokensHandler | cmd/api/tokens.go, `createAuthenticationTokenHandler` |

The collections are classes whose `docs` field holds the stored documents
in insertion order. Store operations that change state are methods with
`modifies` clauses. Their postconditions state the new contents directly
(an appended document) or through the pure function `Without`, and the
answers of the lookups through the pure functions `FindOne` and
`FindByEmail`. The lemmas are stated about those functions. The user record is a class,
because the handler and `Insert` update it in place.

Collaborators the core calls but does not define are inputs:

- the clock: a `now` argument in nanoseconds;
- the randomness source: its bytes or its error;
- the password codec: the digest `Password.Set` computes, or its error;
- the datastore's transport failures: a fault argument per call.

SHA-256 (`Tokens.Sum256`), the codec's `PasswordMatches`, `ValidateEmail`
and `ValidatePasswordPlaintext` are uninterpreted constants of function
type. The model knows nothing of them beyond their signatures.

Registration answers 201 Created with the user and issues no activation
token (cmd/api/users.go:61). The routing table names an activation handler
(cmd/api/routes.go:18) that is not defined in the repository's code, and
no activation flow is modelled.

Both handlers are modelled twice where the repository's code cannot do
what its own error handling expects (see "## Findings"): once as written,
and once with the collaborator behaving as the handler assumes.

The handler uses a `User` with `Activated` and a settable password. The
struct in internal/data/users.go:13-20 has neither. The model's `User`
therefore carries the struct's fields plus `activated` and
`passwordHash`. `password` holds the plaintext that `ValidateUser` checks,
and `passwordHash` the codec's digest. Like the struct's bson tags, the
stored document keeps both.

## Model

| member | source | states |
|---|---|---|
| Tokens.GenerateToken | internal/data/tokens.go:29-47 | a randomness failure is returned as the error; otherwise the token has the given owner and scope, expiry now + ttl, plaintext the unpadded base32 of the random bytes and digest SHA-256 of the plaintext |
| Tokens.GeneratedTokenWellFormed | internal/data/tokens.go:36-52 | a generated plaintext is 26 alphabet symbols, decodes back to the random bytes, passes ValidateTokenPlaintext, and the stored digest is the plaintext's |
| Base32.EncodeNoPadding | internal/data/tokens.go:42 | unpadded base32 of n bytes has (8n + 4) / 5 symbols, all from the RFC 4648 section 6 alphabet |
| Base32.SymbolTable | internal/data/tokens.go:42 | the symbol of each 5-bit value is the alphabet's character at that position, and reading it back gives the value |
| Base32.DecodeEncode | internal/data/tokens.go:42 | decoding the encoding gives the bytes back: the encoding loses nothing |
| Base32.EncodeInjective | internal/data/tokens.go:36-42 | different random bytes never give the same plaintext |
| Base32.SixteenBytesGive26Symbols | internal/data/tokens.go:36-42 | 16 bytes always encode to exactly 26 symbols |
| Base32.EncodeF | internal/data/tokens.go:42 | the test vector of section 10 of RFC 4648: the byte "f" encodes to "MY", which fixes the bit order as most significant first |
| Tokens.ValidateTokenPlaintext | internal/data/tokens.go:49-52 | the validator's errors after the call are those of the two token checks run on the earlier errors |
| Tokens.TokenPlaintextErrors | internal/data/tokens.go:49-52 | on a fresh validator: "must be provided" under "token" for the empty string, "must be 26 bytes long" for any other length but 26, no error for 26 bytes |
| Tokens.FindOne | internal/data/tokens.go:82-89 | the lookup finds a stored document whose digest and scope match and whose expiry is strictly after now, and finds nothing exactly when no document matches |
| Tokens.Without | internal/data/tokens.go:105-108 | the bulk delete removes every copy of each document with that scope and owner and keeps every other document as often as it was stored |
| Tokens.FindOneAppend | internal/data/tokens.go:68-89 | storing one more token changes a lookup only when nothing stored before matched |
| Tokens.IssuedTokenResolves | internal/data/tokens.go:58-98 | once a generated token is stored, its plaintext resolves to its owner under its scope at any time before its expiry, if no earlier document matches |
| Tokens.StoredTokenScopeAndExpiry | internal/data/tokens.go:82-86 | when no other document has its digest, a token resolves only under its own scope and only while now is strictly before its expiry |
| Tokens.WithoutIdempotent | internal/data/tokens.go:101-109 | deleting a user's tokens of a scope a second time deletes nothing more |
| Tokens.DeletedTokensDoNotResolve | internal/data/tokens.go:101-109 | after the delete no lookup under that scope resolves to that user |
| Tokens.WithoutKeepsOtherScopes | internal/data/tokens.go:101-109 | the delete leaves every lookup under another scope as it was |
| Tokens.TokenModel.Insert | internal/data/tokens.go:68-74 | the document without the plaintext is appended, or a datastore failure is returned and the call is taken to write nothing |
| Tokens.TokenModel.New | internal/data/tokens.go:58-66 | an error only when the randomness source fails; otherwise the generated token, stored when the insert succeeds, returned even when the insert fails |
| Tokens.TokenModel.GetUserIDForToken | internal/data/tokens.go:76-99 | the owner of the first document matching digest, scope and unexpired expiry; ErrRecordNotFound exactly when the call did not fail and none matches; a datastore error, which is never ErrRecordNotFound, unchanged |
| Tokens.TokenModel.DeleteAllForUser | internal/data/tokens.go:101-110 | the collection becomes `Without` of its documents, with no error even when nothing matches; a datastore failure is returned and the call is taken to delete nothing |
| Tokens.IssueThenResolve | internal/data/tokens.go:58-98 | New followed by GetUserIDForToken under the same scope before expiry returns the owner, if no earlier document matches the new token's digest and scope |
| Validator.ApplyCollectsFailures | internal/data/users.go:22-31 | every check runs: a key ends up in the errors exactly when some check under it failed (or it was there), with the first message recorded |
| Validator.ApplyValidIff | internal/data/users.go:22-31 | a fresh validator stays valid exactly when every check passes |
| Users.ValidateUser | internal/data/users.go:22-31 | the validator's errors after the call are those of the eight checks run in order on the earlier errors |
| Users.ValidateUserErrors | internal/data/users.go:22-31 | on a fresh validator the errors are, for "name", "email" and "password" independently, the first failing check's message for that field, and nothing else |
| Users.ValidateUserValidIff | internal/data/users.go:23-30 | no error exactly when name is 1..100 bytes, email 1..100 bytes, password 8..72 bytes and password differs from name |
| Users.User.constructor | cmd/api/users.go:31-35 | the new user has the input name and email, `activated` false, and every other field zero |
| Users.User.SetPassword | cmd/api/users.go:37-41 | a codec failure changes nothing and is returned; otherwise the plaintext and its digest are recorded and nothing else changes |
| Users.UserModel.InsertOne | internal/data/users.go:44-51 | a datastore fault or an email or id already stored refuses the write with nothing written; otherwise the document is appended under its own id or a fresh non-nil one, and that id is reported |
| Users.UserModel.Insert | internal/data/users.go:37-54 | stamps version 1 and the creation time; on success the store-assigned id is set, the user is appended, and name, email and password are unchanged; a datastore error, a duplicate email included, is returned unchanged with nothing written and the id not set; an inserted id that is not an ObjectID gives the conversion error after the write |
| Users.UserModel.InsertDetectingDuplicateEmail | cmd/api/users.go:49-58 | as Insert, except that the email index's duplicate-key error is reported as ErrDuplicateEmail |
| Users.UserModel.LookupByEmail | cmd/api/tokens.go:30-38 | the stored account with that email, ErrRecordNotFound exactly when the call did not fail and there is none, or the datastore's error, which is never ErrRecordNotFound, unchanged |
| Users.UserModel.Get | internal/data/users.go:56-58 | no user and no error |
| Users.UserModel.GetByEmail | internal/data/users.go:60-62 | no user and no error |
| Users.UserModel.Update | internal/data/users.go:64-66 | no error, nothing written |
| Users.UserModel.Delete | internal/data/users.go:68-70 | no error, nothing deleted |
| UsersHandler.PrepareUser | cmd/api/users.go:24-48 | a confirmation mismatch is reported alone under "confirmPassword"; a codec failure is a server error; ValidateUser's errors are reported as they are; otherwise a new user with the input's name, email and password, the codec's digest, not activated and every other field zero |
| UsersHandler.RegisterUser | cmd/api/users.go:11-65 | as written: the three refusals of PrepareUser with nothing stored; any insert error a server error, a duplicate email included, with nothing stored; an inserted id that is not an ObjectID a server error after the user is written; otherwise 201 Created with the stored, unactivated, version-1 user under a fresh id |
| UsersHandler.RegisterUserIntended | cmd/api/users.go:49-58 | as RegisterUser, except that a duplicate email is answered with the "email" field error |
| UsersHandler.RegisterSameEmailTwiceAsWritten | cmd/api/users.go:49-61 | as written, registering an address twice creates one account and answers the second attempt with a server error |
| UsersHandler.RegisterSameEmailTwice | cmd/api/users.go:49-61 | with the intended insert, registering an address twice creates one account and refuses the second attempt with the "email" field error |
| TokensHandler.AfterLookup | cmd/api/tokens.go:31-59 | from the lookup's answer on: ErrRecordNotFound gives InvalidCredentials and any other lookup error a server error; a nil user with no error gives a server error (the recovered panic); a codec error gives a server error and a wrong password InvalidCredentials; a match issues one authentication token for the account's id with a 24-hour lifetime and answers 201 with its plaintext and expiry |
| TokensHandler.CreateAuthenticationTokenAsWritten | cmd/api/tokens.go:11-63 | as written, with GetByEmail answering no user and no error: validation errors are reported, and every other login ends in a server error with no token stored |
| TokensHandler.CreateAuthenticationToken | cmd/api/tokens.go:11-63 | with a lookup that finds the stored account: validation errors are reported before any lookup; an unknown email and a wrong password both give the same InvalidCredentials; a failed lookup and a codec error give a server error; a match issues one authentication token for the account's id with a 24-hour lifetime; the user store is never written |

## Left out

- HTTP: JSON decoding (`readJSON` and its bad-request answer), JSON writing and a failure while writing the response are not modelled. The handlers start from the decoded input and end with the response value.
- cmd/api/main.go, cmd/api/server.go and cmd/api/routes.go (configuration, the Mongo connection, the server, signal handling, routing and middleware) are I/O and concurrency. Only the effect of the recoverPanic middleware is modelled: a panic in a handler is answered with a server error. The activation handler named in the routing table is not defined in the repository's code.
- The `validator` package is not defined in the repository's code. The model assumes the conventional semantics: `AddError` keeps the first message under a key and `Check` adds its message only when the condition fails.
- `ValidateEmail`, `ValidatePasswordPlaintext`, `Password.Set`, `PasswordMatches` and `ErrDuplicateEmail` are not defined in the repository's code. The functions are uninterpreted, or their outcome is an input.
- SHA-256 internals and `crypto/rand` are foreign calls: `Sum256` is uninterpreted, and the random bytes are an input.
- Time: `time.Now()` is an argument in nanoseconds. BSON's truncation of stored and queried times to milliseconds is not modelled.
- Mongo's `FindOne` without a sort has no defined order. The model returns the first match in insertion order.
- Context deadlines and network errors are fault arguments, one per datastore call. A fault is a driver error only (`Primitives.DriverError`: a transport failure or a duplicate key), never one of the `data` package's own errors.
- A failed datastore call is modelled as having had no effect, while the real `DeleteMany` may delete part of the matches before failing and a timed-out `InsertOne` may have written the document.
- Users.UserModel: a unique index on `email` is assumed. The repository creates no index: internal/data/models.go:18-22 only opens the collection. Without that index the datastore would accept a second account with the same email, and a second registration would answer 201. UserModel.Valid, InsertOne's duplicate-key refusal, RegisterSameEmailTwiceAsWritten, RegisterSameEmailTwice and the first row of "## Findings" all rest on this assumption.
- Tokens.IssuedTokenResolves: the round trip is proved only when no document stored earlier matches the new token's digest and scope. Another matching document is possible only through a digest collision or repeated random bytes, and `FindOne` might then return that document.
- Users.UserModel.Update: the optimistic-concurrency update is a stub that writes nothing. No version check exists to model.
- Base32: the model pins the encoding to the test vector for "f" only. A longer vector such as "foobar" is not stated, because its proof is too costly for the verifier.
- The `Version` field is a Go `int32`. The model only ever sets it to 1, so its width plays no part.

## Findings

| source | as written | input that shows it | evidently intended | confidence | as-written member | corrected member |
|---|---|---|---|---|---|---|
| internal/data/users.go:44-47 | `Insert` returns the datastore's error unchanged, so a refused duplicate email reaches the handler as a driver duplicate-key error. Nothing in the repository returns `ErrDuplicateEmail` (internal/data/models.go:8-11 does not even declare it), so the handler's duplicate branch (cmd/api/users.go:52-54) never runs. | registering an email that is already stored, with the unique email index in place: the index refuses the write, and the handler answers with a server error | `Insert` reports the email index's duplicate-key error as `ErrDuplicateEmail`, so the client gets the "email" field error "a user with this email address already exists" | high, given the assumed email index; not executed | UsersHandler.RegisterSameEmailTwiceAsWritten | UsersHandler.RegisterSameEmailTwice |
| cmd/api/tokens.go:31-42 | `GetByEmail` is a stub that returns no user and no error (internal/data/users.go:60-62). The handler checks only the error and then calls `PasswordMatches` on the nil user. The panic is recovered by recoverPanic (cmd/api/routes.go:21) as a server error. | any login whose email and password pass validation | `GetByEmail` returns the stored account, or `ErrRecordNotFound` when there is none, and the handler checks the password | high: any `PasswordMatches` that reads the user's stored hash dereferences the nil user; not executed | TokensHandler.CreateAuthenticationTokenAsWritten | TokensHandler.CreateAuthenticationToken |
