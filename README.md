# tsuru auth: token lifecycle

A Dafny model of the token lifecycle of tsuru's `auth` package. The package
issues session tokens for users, application tokens for services such as
`tsuru-healer`, and single-use password-reset tokens. It looks tokens up with
expiry, resolves a token's owner, deletes tokens, and writes a token as JSON.
The behaviour modelled is the behaviour that `auth/token_test.go` pins down.

- `auth_types.dfy` (module `AuthTypes`): users, tokens, password tokens and
  error kinds. Each error kind has its exact message. The module also holds
  the user check that both token factories run.
- `fingerprint.dfy` (module `Fingerprint`): the generator `token(seed, hash)`.
  It is a class that records every value it has handed out. Each call returns
  a non-empty value it never returned before. A lemma shows such a value
  always exists.
- `token_store.dfy` (module `Tokens`): the two stores are map fields of a
  `Store` class. The lookup decision (`Lookup`), owner resolution
  (`TokenUser`), record counting (`CountMatching`) and reset-token lookup
  (`FindPasswordToken`) are pure functions. Lemmas relate `Lookup`,
  `CountMatching` and `FindPasswordToken` to inserts, deletes and the passage
  of time; `TokenUser` carries its property in its own contract. The class
  invariant says each record sits under its own token value. It also says
  every stored value came from the generator, so a new value never collides
  with a stored one.
- `token_json.dfy` (module `TokenJson`): the fixed wire layout
  `{"token":…,"valid-until":…,"email":…,"app":…}`. A parser for the same
  layout comes with a round-trip proof.
- `token_scenarios.dfy` (module `TokenScenarios`): the six tests that chain
  several calls, restated as methods over the model: the loop over generated
  tokens (`TestTokenCannotRepeat`), `TestGetExpiredToken`,
  `TestCreateApplicationToken`, `TestDeleteToken`, `TestCreatePasswordToken`
  and the loop over the error table (`TestCreatePasswordTokenErrors`). The
  test's deferred cleanup is part of each method.

The single-call tests are covered by contracts and lemmas instead: the two
`newUserToken` tests by `Store.NewUserToken` and `ValidateUser`, the three
`GetToken` tests by `Lookup`, `Store.GetToken` and `LookupAfterIssue`,
`TestTokenMarshalJSON` by `MarshalSample`, and the two `TestTokenGetUser`
tests by `TokenUser`.

Time is an integer number of nanoseconds passed in as `now`. A token is
expired when `validUntil <= now`, so it is valid strictly before its
`validUntil`. The tests only fix the two ends (a future instant is valid, one
a day in the past is expired), so this boundary follows the design's
"valid iff now < valid_until".

Where the design and the code disagree, the model follows the code:

- `GetToken("")` fails with "Token not found" (auth/token_test.go:56-61). The
  design describes a separate `EmptyToken` kind. The model checks the empty
  value before it looks at the store and reports `TokenNotFound`.
- The design lets a nil owner pass when an application name is given. The
  code splits this into two functions instead. `newUserToken` always rejects a
  nil user. `CreateApplicationToken` takes only a name.

## Model

| member | source | states |
|---|---|---|
| AuthTypes.ValidateUser | auth/token_test.go:35-48 | A nil user gives UserIsNil. A user with an empty email gives the factory's own missing-email kind. Every other user passes. |
| AuthTypes.Message | auth/token_test.go:35-80 | Each error kind's `err.Error()` text ("User is nil", "Impossible to generate tokens for users without email", "User email is empty", "Token not found", "Token has expired", "User not found") reads back, through KindOfMessage, as exactly that kind. |
| AuthTypes.MessagesDistinguishKinds | auth/token_test.go:35-80 | Two error kinds have the same message exactly when they are the same kind, so callers can branch on the text. |
| Fingerprint.FreshValueExists | auth/token_test.go:17-33 | However many values have been issued, a non-empty value outside that set exists. |
| Fingerprint.Generator.Generate | auth/token_test.go:17-33 | Returns a non-empty value that differs from every earlier result, and adds exactly that value to the issued set. |
| TokenScenarios.TokensCannotRepeat | auth/token_test.go:17-33 | n calls with one seed return n values, each different from the first and from each other. None was issued before. |
| Tokens.Store.NewUserToken | auth/token_test.go:35-48 | Fails exactly when ValidateUser fails, with its error, and then issues nothing. On success it returns a token for the user's email with no app name, a validity of now plus the user TTL and a freshly issued value. |
| AuthTypes.Expired | auth/token_test.go:70-80 | A token is expired at `now` when its validUntil is not after `now`. |
| AuthTypes.ExpiredIsPermanent | auth/token_test.go:70-80 | A token expired at some instant is expired at every later instant. |
| Tokens.Lookup | auth/token_test.go:50-80 | Ok exactly when the value is non-empty, stored and not expired, and then it returns the stored record, whose token equals the value. TokenNotFound exactly when the value is empty or absent. TokenExpired exactly when it is stored but expired. |
| Tokens.Store.GetToken | auth/token_test.go:50-80 | Returns Lookup of the current store. On success the record's token equals the requested value. The store is not changed. |
| Tokens.LookupAfterIssue | auth/token_test.go:50-54 | A record stored under a non-empty value is returned by a lookup before its validUntil. |
| Tokens.LookupValidBefore | auth/token_test.go:70-80 | A lookup that succeeds at some instant gives the same result at every earlier instant. |
| Tokens.LookupFailsAfter | auth/token_test.go:70-80 | A lookup that fails at some instant fails with the same error at every later instant, so an expired token never revives. |
| Tokens.LookupFrame | auth/token_test.go:50-54 | Storing or removing one value leaves the lookup of every other value unchanged. |
| TokenScenarios.GetExpiredToken | auth/token_test.go:70-80 | With validUntil moved a day back, GetToken fails with "Token has expired". The deferred removal leaves both stores as they were. |
| Tokens.Store.CreateApplicationToken | auth/token_test.go:82-91 | Returns a token with the given app name, no owner and a validity of now plus the app TTL. Its value is fresh and absent from the store. The store gains exactly that record and nothing else changes. |
| Tokens.CountMatching | auth/token_test.go:86-89 | The number of records equal to t is at most the store's size, and is 0 exactly when no record equals t. |
| Tokens.CountMatchingKeyed | auth/token_test.go:86-89 | In a store keyed by token value, the number of records equal to t is 1 when t is stored under its own value, and 0 otherwise. |
| Tokens.Store.Count | auth/token_test.go:86-89 | Returns the number of records equal to t, which is at most 1, and is 1 exactly when t is stored under its value. |
| Tokens.Store.UpdateToken | auth/token_test.go:73-75 | Replaces the record under t.token with t when one exists, and reports whether it did. Otherwise nothing changes. |
| TokenScenarios.CreateApplicationTokenStored | auth/token_test.go:82-91 | After CreateApplicationToken("tsuru-healer"), the count of equal records is 1 and the app name is "tsuru-healer". The cleanup leaves the stores as they were. |
| TokenJson.MarshalSample | auth/token_test.go:93-106 | The sample token marshals to exactly the expected text, with the formatted time in the valid-until slot. |
| TokenJson.MarshalJSON | auth/token_test.go:93-106 | The text starts with `{"token":"`. Parsing it gives back the token, valid-until, email and app texts, whenever none holds a quote. |
| TokenJson.MarshalInjective | auth/token_test.go:93-106 | Two quote-free tokens with the same wire text agree on the token, the time text, the email and the app. |
| Tokens.TokenUser | auth/token_test.go:108-119 | Ok exactly when the directory has the token's email, and then it returns that user, whose email equals the token's in a directory keyed by email. Otherwise UserNotFound. |
| Tokens.Store.DeleteToken | auth/token_test.go:121-129 | The tokens store loses exactly the given value. The password store is unchanged. |
| Tokens.LookupAfterDelete | auth/token_test.go:121-129 | After the value is removed, its lookup is TokenNotFound. |
| TokenScenarios.DeleteThenGet | auth/token_test.go:121-129 | Create then delete then GetToken fails with "Token not found", and the stores end as they began. |
| Tokens.Store.CreatePasswordToken | auth/token_test.go:131-159 | Fails exactly when ValidateUser (with UserEmailEmpty) fails, with its error, and then nothing changes. On success it stores, under a fresh value, an unused token for the user's email created at now, and returns that record. |
| Tokens.FindPasswordToken | auth/token_test.go:137-142 | Finds a record exactly when the id is stored, and returns the stored record, whose token equals the id in a store keyed by token value. |
| Tokens.FindAfterInsert | auth/token_test.go:137-142 | A reset token inserted under its own value is found under that id, field for field. |
| Tokens.FindFrame | auth/token_test.go:137-142 | Inserting one reset token leaves what is found under every other id unchanged. |
| Tokens.Store.GetPasswordToken | auth/token_test.go:137-142 | Returns the record stored under the id, whose token equals the id. |
| TokenScenarios.CreatePasswordTokenStored | auth/token_test.go:131-143 | For "pure@alanis.com" the token is unused and owned by that email, and the stored record equals it field for field. |
| TokenScenarios.PasswordTokenErrorCasesRejected | auth/token_test.go:145-152 | Each row of the table (nil user, user without email) is rejected with its expected message. |
| TokenScenarios.CheckPasswordTokenErrors | auth/token_test.go:145-159 | For each row, reports whether createPasswordToken failed with that row's message. The tokens store is untouched. A table of rejected inputs also leaves the password store and the generator untouched. |

## Left out

- The production file `auth/token.go` is not part of this model. The model is
  rebuilt from the assertions of `auth/token_test.go`, so helpers the tests
  never reach are not modelled (for example, saving the result of
  `newUserToken`).
- The MongoDB collections and their driver are replaced by map fields.
  Store failures (connection errors, duplicate keys) are not modelled, so
  `CreateApplicationToken` and `DeleteToken` return no error. A duplicate key
  cannot arise, because issued values are fresh.
- Fingerprint.Generator.Generate: does not model the digest of seed, time and
  entropy, or its fixed hex length. It returns any non-empty value not issued
  before. The seed and the hash algorithm are accepted and ignored. The
  algorithms the callers pass (SHA1, SHA256) are placeholders, since the
  calls are not visible.
- `time.Now()` is the `now` parameter. The user and application TTLs are
  positive constants of the store, because their values are not visible.
- The goroutines and the wait group in the generator test are left out. Only
  the distinctness of the outputs is modelled.
- TokenJson.MarshalJSON: JSON string escaping is not modelled. Field
  texts are written as they are, and the round trip is proved only for texts
  without quotes. The RFC 3339 nanosecond time text is an argument.
- `Token.User()`'s error message is not visible in the tests. The model's
  "User not found" text is a placeholder, and only the error kind is fixed.
- Consuming a password-reset token (setting `Used`) has no visible code path
  and is not modelled.
- The test fixtures (`s.token`, `s.user`) become preconditions and arguments.
