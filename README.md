# User and wallet registries — a Dafny model

This project models the record-keeping core of two microservices of a small
Express/Mongoose system:

- the **user service**: the availability check for an email address, registration of a
  new account (email kept unique, password and a random identity token stored only
  hashed), and the joi rules for the bodies of its other routes;
- the **wallet service**: creating a user's single wallet, reading it, and updating it
  through an allow-list of fields (only `balance`).

Each Mongo collection is a class holding a map from document id to document. Its
`Valid()` invariant says three things: ids are fresh, every stored document passed the
Mongoose schema, and the key property holds (emails pairwise distinct; at most one wallet
per user). Each request handler is a method on that class and returns a `Response`:
`Ok`, `Created`, `ValidationError(errors, code)`, `NotFound`, `RequestInvalid` (the body
failed the route's joi rule) or `ServerError` (a failure raised inside the transaction
and passed to the Express error handler, which answers with `failServerError`, as
`user-service/src/app.ts:31-40` does).

## How the model is organised

- `Json` — parsed request bodies (`map<string, Value>`) and JavaScript truthiness.
- `Joi` — the part of joi the schemas use, as a small interpreter: `Accepts(schema, body, isEmail)`.
  It follows joi's defaults:
  - keys the schema does not declare are rejected;
  - `string()` rejects `""`;
  - a value matching an entry of `valid(...)` (a literal or `joi.ref`) is accepted, and any other value is rejected.
- `UserModel`, `WalletModel` — the document types with their schema defaults and
  required fields, and the joi rules written as schema data. For each rule, a lemma
  states exactly which bodies it accepts, in plain terms and in both directions.
- `UserController.UserRegistry`, `WalletController.WalletRegistry` — the collections and
  the handlers.

Route validation, i.e. `validateRequest(req, res, rule, handler)`, is modelled as "run the
handler only if `Accepts(rule, body)`; otherwise answer `RequestInvalid` and touch nothing".
`withTransaction(next, work)` is modelled as all-or-nothing: the handler writes to a session
copy of the map, and the copy becomes the store only when no call raised. A `Fault`
parameter names the call that raises, if any: the lookup, the hashing, or the save. A save
also raises when the document fails the schema's validation: an empty required string, or
a gender outside the enum.

The outside world enters as parameters:
- the `.email()` format check: `isEmail`;
- `isValidObjectId`: `validId`;
- bcrypt hashing with a random salt: `hash: (string, Salt) -> string`, plus the salts;
- `randomString({length: 128})`: `Entropy.token`, required to be 128 characters long.

A taken email gets a validation error, not a success response carrying feedback
(`user-service/src/controllers/user.ts:25-27`).

## Model

| member | source | states |
|---|---|---|
| `UserController.UserRegistry.GetAccountAvailability` | user-service/src/controllers/user.ts:15-28 | No truthy `email` in the body gives NotFound "No input provided", whatever the store holds. An email value that selects a stored user gives ValidationError(["Email is registered"], "account-not-available"); otherwise the result is Ok("Account available"). A string selects the user with that exact email; a value of another type selects the users that Mongoose's casting of it (a parameter) matches. The method only reads the store. |
| `UserController.UserRegistry.FindByQuery` | user-service/src/controllers/user.ts:22 | The lookup of an unvalidated body value finds a user exactly when some stored user matches the query, and what it returns is such a user. A string matches by equality; any other value matches through the cast-match parameter. |
| `UserController.UserRegistry.FindByEmail` | user-service/src/controllers/user.ts:38 | The lookup by a string email finds a user exactly when some stored user has that email, and what it returns is such a user. |
| `UserController.UserRegistry.CreateUser` | user-service/src/controllers/user.ts:30-60 | A body the `create` rule rejects never reaches the handler, and the store is unchanged. A registered email gives ValidationError(["This email address is already registered"], "validation-error") and no write. A raised call gives ServerError and no write. Otherwise the store gains exactly one user under a fresh id and the result is Created("User account created"). That user has the submitted email, password = hash(submitted password, salt), idToken = hash(128-character random string, salt), and the schema defaults. `Valid()` is kept, so emails stay pairwise distinct across any sequence of calls. |
| `UserModel.NewUserDefaults` | user-service/src/models/user.ts:13-39 | A new user document has `fullName` "" and `gender` "Male". It passes the schema (`Conforms`: idToken, email and password required, gender in the enum ["Male", "Female"]) exactly when its three required strings are non-empty. |
| `UserModel.CreateRuleExactly` | user-service/src/models/user.ts:42-45 | `create` accepts a body iff it has no keys other than `email` and `password`, `email` is a non-empty, email-formatted string of at most 50 characters, and `password` is a string of at least 6 characters. |
| `UserModel.UpdateRuleExactly` | user-service/src/models/user.ts:46-53 | `update` accepts a body iff it has only the six declared keys and each key present meets its own rule. `email`: email-formatted, at most 50 characters. `fullName`: non-empty, at most 100 characters. `currentPassword`: a non-empty string. `password`: at least 6 characters. `confirmPassword`: present only together with `password` and equal to it. `gender`: "Male" or "Female". Every key is optional. |
| `UserModel.UpdateKeys` | user-service/src/models/user.ts:46-53 | The same conditions, one key of the `update` rule at a time. |
| `UserModel.UpdateGenderIsSchemaEnum` | user-service/src/models/user.ts:28-52 | The gender values the `update` rule admits are exactly the schema's enum values. |
| `UserModel.InitiatePasswordResetRuleExactly` | user-service/src/models/user.ts:54-56 | `initiatePasswordReset` accepts a body iff its only key is a required, non-empty, email-formatted `email` of at most 50 characters. |
| `UserModel.FinalizePasswordResetRuleExactly` | user-service/src/models/user.ts:57-61 | `finalizePasswordReset` accepts a body iff it has exactly these keys: `newPassword`, a string of at least 6 characters; `confirmPassword`, present and equal to `newPassword`; and a non-empty string `verificationCode`. |
| `WalletController.WalletRegistry.CreateWallet` | wallet-service/src/controllers/wallet.ts:7-39 | A body the wallet `create` rule rejects never reaches the handler, and the store is unchanged. An invalid user id gives ValidationError(["Invalid user id"], "validation-error") and no write. A user who already has a wallet gives ValidationError(["This user has an existing wallet"], "validation-error") and no write. A raised call gives ServerError and no write. Otherwise the store gains exactly one wallet {user: userId, balance: 0} and the result is Created("User wallet created"). `Valid()` is kept, so each user has at most one wallet. |
| `WalletController.WalletRegistry.FindByUser` | wallet-service/src/controllers/wallet.ts:19 | The lookup finds a wallet exactly when some stored wallet belongs to the user, and what it returns is such a wallet. |
| `WalletController.WalletRegistry.GetWallet` | wallet-service/src/controllers/wallet.ts:41-53 | An invalid id gives ValidationError(["Invalid user id"], "validation-error"). A user without a wallet gives NotFound "Wallet not created for this user id". Otherwise the result is Ok with a stored wallet whose `user` is the id. The method only reads the store. |
| `WalletController.WalletRegistry.UpdateWallet` | wallet-service/src/controllers/wallet.ts:55-84 | A body the wallet `update` rule rejects never reaches the handler, and the store is unchanged. An invalid id gives ValidationError and no write. No wallet gives NotFound "Wallet not created for this user id" and no write. A raised call gives ServerError and no write. Otherwise exactly that user's wallet changes: its balance becomes `body.balance`, its `user` stays the same, and no other wallet changes. The updated wallet is returned. `Valid()` is kept. |
| `WalletController.FilterFields` | wallet-service/src/controllers/wallet.ts:70-74 | A field is in the result iff it is both in the allow-list and among the body's keys. The result is no longer than the allow-list. |
| `WalletController.AssignFields` | wallet-service/src/controllers/wallet.ts:76 | The `forEach` loop gives the document that assigning the listed fields one after another gives. A value that does not cast to its field's type is a cast error. |
| `WalletController.FilteredUpdateChangesOnlyBalance` | wallet-service/src/controllers/wallet.ts:69-76 | For any body, filtering by `["balance"]` and then assigning has one of three effects. With no `balance` key, the wallet is unchanged. With a number `balance`, only the balance changes, to that number. With any other `balance` value, the result is a cast error. The `user` field never changes. |
| `WalletModel.NewWalletDefaults` | wallet-service/src/models/wallet.ts:16-28 | A new wallet has balance 0 and the given user. It passes the schema (`user` required) exactly when the user id is non-empty. |
| `WalletModel.CreateRuleExactly` | wallet-service/src/models/wallet.ts:31-33 | The wallet `create` rule accepts a body iff its only key is `userId`, a non-empty string. |
| `WalletModel.UpdateRuleExactly` | wallet-service/src/models/wallet.ts:34-36 | The wallet `update` rule accepts a body iff its only key is `balance`, a number. |

## Left out

- The password-reset, authentication, token-refresh, user-data, profile-update and `testNotification` handlers named by `user-service/src/routes/user.ts` are not part of this model; only the joi rules they would use are modelled.
- `user-service/src/util/validation.ts` and `wallet-service/src/util/validation.ts` (`validateRequest`) are not part of this model. Each is taken to run joi with its default options except conversion, and to answer `RequestInvalid` on failure. The error messages it would send are not modelled.
- `user-service/src/util/database.ts` and `wallet-service/src/util/database.ts` (`withTransaction`) are not part of this model. Mongo sessions, isolation and the race between two concurrent check-then-insert requests are left out. So is the unique index on `email`, which would catch that race.
- The wallet service's own `app.ts` error handler is not part of this model. A failure passed to `next` is taken to answer `ServerError`, as the user service's handler does.
- `UserController.UserRegistry.GetAccountAvailability`, `WalletController.WalletRegistry.GetWallet`: a store failure during their lookup is not modelled. These handlers run outside a transaction and do not catch it.
- `UserController.UserRegistry.FindByQuery`: how Mongoose matches a query value that is not a string is a parameter, not modelled code. That covers casting a number or boolean to a string, `$in` over an array, and query operators such as `{"$ne": null}` in an object.
- `WalletController.SetField`: Mongoose's casting of numeric strings, booleans or null to the number path, and of numbers to the string path, is not modelled; only a JSON number casts to `balance` and only a string to `user`. A validated body always carries a number.
- Joi's conversion of numeric strings by `number()` and its safe-integer bound are not modelled. Any JSON number is accepted, including one too large for a double, which `JSON.parse` turns into `Infinity` and `joi.number()` rejects.
- String lengths are counted in Unicode characters, not in JavaScript's UTF-16 code units.
- Whether an email is well formed (`.email()`), `isValidObjectId`, bcrypt hashing and salts, and `randomString` are parameters, not modelled code.
- `createdAt`/`updatedAt` timestamps, document ids in response bodies, HTTP status codes and the response helper's JSON shape are not modelled.
- Hashing that raises is the `HashFails` fault. The model cannot tell which of the two hash calls failed, and it does not need to.
- Server start-up, routing, JWT checking, the message queue helper, the notification service and the pending-verification schema are I/O plumbing or unused by the modelled handlers.
- Wallet `balance`, a JavaScript number, is a `real` that is only assigned, never computed with, so floating point is not modelled.
