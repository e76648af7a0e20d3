# PIN authentication of the Tirta Alami server, in Dafny

This project models the two request handlers of the server's `/auth` routes
(`src/api/auth/auth.controller.ts`):

- `loginController` checks an id and a PIN. It looks the id up in the `admin`
  collection first and then in the `customer` collection. It refuses locked
  accounts and accounts with no PIN. It counts wrong PINs and locks a
  customer account when the count reaches `MAX_LOGIN_ATTEMPTS = 5`.
- `setPinController` provisions a PIN once. It stores the bcrypt digest of
  the new PIN, zeroes the failure counter and clears the lock.

Files:

- `bcrypt.dfy` (module `Bcrypt`) models `bcrypt.hash` and `bcrypt.compare` as
  `Hash` and `Matches`. bcrypt keys its cipher with the UTF-8 bytes of the
  PIN and uses at most the first 72 of them (`Key`). The digest is a
  deterministic encoding of those bytes. The fact the controller relies on,
  `Matches(p, Hash(p))`, is the lemma `HashMatches`. A PIN matches another
  PIN's digest exactly when their first 72 bytes agree
  (`MatchesIffSameKey`). So two different PINs that fit in 72 bytes never
  match (`HashRejectsOther`), while longer PINs that share 72 bytes do
  (`LongPinsCollide`).
- `auth_spec.dfy` (module `AuthSpec`) holds the documents (`Account`), the
  two collections (`Store`, two maps keyed by `adminId` / `customerId`) and
  the responses (`Response`). `Login` and `SetPin` give, as functions, the
  response each handler sends and the collections afterwards.
- `auth_controller.dfy` (module `AuthController`) holds the class
  `AuthService`. Its two map fields are the collections. Its methods `Login`
  and `SetPin` update them in place, step by step as the handlers do. Each
  is proved to produce exactly the outcome of the matching `AuthSpec`
  function.
- `auth_properties.dfy` (module `AuthProperties`) states what one request
  does in each branch.
- `auth_sequences.dfy` (module `AuthSequences`) serves runs of requests
  (`Run`) and proves what happens over many requests. It covers the lockout
  on the fifth wrong PIN, and what no run of requests can do.

The model follows the code as it is written, including four places where it
differs from the intended design:

- A successful login writes `failedPinAttempt: 0` (singular) at lines 36 and
  73, so `failedPinAttempts` is never reset. Failures therefore add up across
  successful logins (`SuccessDoesNotResetCounter`).
- On an admin's wrong PIN, lines 50 and 52 call `updateOne` on the fetched
  document instead of on the `admins` collection. A plain document from the
  driver's `findOne` has no such method. The call throws into the catch at
  lines 95-97, which answers 500 and leaves the store unchanged. As a
  consequence, no sequence of requests can lock an admin
  (`AdminIsNeverLocked`).
- An id found in neither collection reaches the end of the `try` block
  without a response (`NoResponse`). It does not get a 404.
- A customer's successful login reports the customer id under the key
  `adminId` (line 79). `Response.Success` therefore has one id field,
  `adminId`, for both roles.

The minimum PIN length of set-pin is tested on `newPin.length`, which counts
UTF-16 code units (`JsLength`). A character above U+FFFF counts twice.

Request fields follow JavaScript truthiness. `id`, `pin` and `newPin` are
`Option<string>`, and a missing field and the empty string are both falsy. A
stored `hashedPin` counts as set only when present and non-empty (`HasPin`).
The lock check queries `isLocked: true`, so a missing `isLocked` behaves as
`false`, and the field is a `bool`. A missing `failedPinAttempts` counts as 0
(`Attempts`).

## Model

| member | source | states |
|---|---|---|
| Bcrypt.Hash | src/api/auth/auth.controller.ts:138-139 | the digest stored for a PIN is a non-empty string |
| Bcrypt.HashMatches | src/api/auth/auth.controller.ts:33 | `compare(pin, hash(pin))` holds for every PIN |
| Bcrypt.HashRejectsOther | src/api/auth/auth.controller.ts:71 | of two different PINs whose UTF-8 encodings fit in 72 bytes, neither matches the other's digest |
| Bcrypt.Key | src/api/auth/auth.controller.ts:33 | bcrypt uses at most 72 bytes of the PIN: the key is a prefix of the UTF-8 encoding, all of it when that fits in 72 bytes, else exactly its first 72 bytes |
| Bcrypt.Matches | src/api/auth/auth.controller.ts:33 | `bcrypt.compare(pin, hashed)`: the stored digest is the digest of the PIN's 72-byte key |
| Bcrypt.MatchesIffSameKey | src/api/auth/auth.controller.ts:71 | `compare(q, hash(p))` holds exactly when the first 72 UTF-8 bytes of q and p agree |
| Bcrypt.ShortPinFits | src/api/auth/auth.controller.ts:106 | a PIN of at most 18 characters fits in bcrypt's 72 key bytes |
| Bcrypt.LongPinsCollide | src/api/auth/auth.controller.ts:138-139 | two PINs sharing a prefix of 72 or more UTF-8 bytes match each other's digest, whatever follows |
| AuthSpec.Status | src/api/auth/auth.controller.ts:10-155 | the HTTP code of each response: 400 for invalid input, Account Locked, pin_not_set and already set; 401 wrong PIN; 200 login and set-pin success; 404 unknown id; 500 caught exception; none when the handler falls through |
| AuthSpec.JsLength | src/api/auth/auth.controller.ts:106 | `newPin.length` counts UTF-16 code units: between the number of characters and twice that, and exactly the number of characters when none is above U+FFFF |
| AuthSpec.JsLengthIsUtf16Length | src/api/auth/auth.controller.ts:106 | `JsLength` is the length of the string's UTF-16 encoding (`Utf16`, a surrogate pair above U+FFFF) |
| AuthSpec.JsLengthAppend | src/api/auth/auth.controller.ts:106 | the length of a concatenation is the sum of the lengths |
| AuthSpec.Truthy | src/api/auth/auth.controller.ts:14 | a request field is truthy when present and not the empty string |
| AuthSpec.HasPin | src/api/auth/auth.controller.ts:29 | `hashedPin` is truthy when present and not empty |
| AuthSpec.Attempts | src/api/auth/auth.controller.ts:47 | `failedPinAttempts || 0`: a missing counter reads as 0 |
| AuthSpec.Put | src/api/auth/auth.controller.ts:141-148 | `updateOne` on one collection replaces the document under the id there and leaves the other collection unchanged |
| AuthSpec.Resolve | src/api/auth/auth.controller.ts:117-128 | lookup is admin-first: found iff the id is in either collection, the account returned is the one stored under the id in the collection of the role returned, and a customer is returned only when no admin has the id |
| AuthSpec.Failed | src/api/auth/auth.controller.ts:84-90 | a wrong PIN raises the counter by one (missing counts as 0) and locks the account exactly when the new count reaches 5; no other field changes |
| AuthSpec.Provisioned | src/api/auth/auth.controller.ts:141-148 | after provisioning the account holds a digest the new PIN matches, a zero counter and no lock; name and the stray field are kept |
| AuthSpec.Login | src/api/auth/auth.controller.ts:10-100 | only a success or a customer's 401 writes to the store; a success reports the requested id; a 401 happens only for an id that is a customer and not an admin |
| AuthSpec.SetPin | src/api/auth/auth.controller.ts:103-155 | every response except 200 leaves the store unchanged; 200 only for a valid request whose id resolves to an account without a PIN |
| AuthController.AuthService.constructor | src/api/auth/auth.controller.ts:18-19 | the service starts on the two given collections |
| AuthController.AuthService.Login | src/api/auth/auth.controller.ts:10-100 | the in-place handler sends exactly the response of `AuthSpec.Login` and leaves the collections exactly as it says; an admin id leaves the customers untouched |
| AuthController.AuthService.SetPin | src/api/auth/auth.controller.ts:103-155 | the in-place handler, with its step-by-step choice of document and collection, sends exactly the response of `AuthSpec.SetPin` and leaves the collections as it says |
| AuthProperties.LoginRejectsMissingFields | src/api/auth/auth.controller.ts:14-16 | a missing or empty id or PIN gets 400 and neither collection changes |
| AuthProperties.AdminLoginIgnoresCustomers | src/api/auth/auth.controller.ts:22-23 | for an admin id, login does not write the customers and its outcome does not depend on them |
| AuthProperties.AdminSetPinIgnoresCustomers | src/api/auth/auth.controller.ts:118-121 | for an admin id, set-pin does not write the customers and its outcome does not depend on them |
| AuthProperties.LockedAccountIsRefused | src/api/auth/auth.controller.ts:24-27 | a locked account gets 400 Account Locked whatever the PIN, even with no PIN set, and nothing changes |
| AuthProperties.UnprovisionedAccountIsRefused | src/api/auth/auth.controller.ts:29-31 | an unlocked account with no digest gets pin_not_set and nothing changes |
| AuthProperties.CustomerWrongPinCounts | src/api/auth/auth.controller.ts:84-92 | a customer's wrong PIN gets 401, sets the counter to old+1 and locks exactly when that reaches 5; no other field or document changes |
| AuthProperties.AdminWrongPinFails | src/api/auth/auth.controller.ts:46-56 | an admin's wrong PIN gets 500 and the store is unchanged, because the update is called on the document |
| AuthProperties.CorrectPinSucceeds | src/api/auth/auth.controller.ts:35-45 | the right PIN gets 200 with role, id and name; only failedPinAttempt is written; the counter, lock and digest keep their values; the other collection is untouched |
| AuthProperties.UnknownIdGetsNoResponse | src/api/auth/auth.controller.ts:94-100 | an id in neither collection gets no response and nothing changes |
| AuthProperties.LoginKeepsRegistrations | src/api/auth/auth.controller.ts:10-100 | login adds and removes no document, changes no name or digest and never unlocks |
| AuthProperties.SetPinRejectsInvalidInput | src/api/auth/auth.controller.ts:106-108 | a missing id, or a missing PIN or one shorter than 4 UTF-16 code units, gets 400 and nothing changes |
| AuthProperties.SetPinCountsCodeUnits | src/api/auth/auth.controller.ts:106 | a PIN of two characters above U+FFFF has length 4 and is provisioned |
| AuthProperties.SetPinUnknownId | src/api/auth/auth.controller.ts:130-132 | an id in neither collection gets 404 and nothing changes |
| AuthProperties.SetPinRefusesReprovisioning | src/api/auth/auth.controller.ts:134-136 | an account that already has a digest gets 400 and nothing changes, the digest included |
| AuthProperties.SetPinProvisions | src/api/auth/auth.controller.ts:138-150 | success stores exactly Hash(newPin), counter 0 and no lock on the matched document only (the admin one when the id is in both), and answers 200 |
| AuthProperties.SetPinClearsLockOfUnprovisioned | src/api/auth/auth.controller.ts:130-148 | set-pin does not check the lock: a locked account without a PIN is provisioned and unlocked |
| AuthProperties.LoginAfterSetPin | src/api/auth/auth.controller.ts:71-92 | after provisioning, a PIN with the same first 72 UTF-8 bytes logs in; any other PIN gets 401 with counter 1 for a customer and 500 for an admin |
| AuthProperties.AdminScenario | src/api/auth/auth.controller.ts:33-56 | admin A1 with the digest of 1234: 1234 succeeds as admin, 0000 gets 500 and changes nothing |
| AuthSequences.RunEvolves | src/api/auth/auth.controller.ts:10-155 | over any run of requests, documents are neither added nor removed, names never change, a stored digest never changes, a locked account with a digest never changes, and an admin is never locked and its counter never grows |
| AuthSequences.ProvisionedPinIsFinal | src/api/auth/auth.controller.ts:134-136 | no run of requests changes a digest once stored |
| AuthSequences.LockIsPermanent | src/api/auth/auth.controller.ts:24-27 | a locked account with a digest is unchanged, so never unlocked, by any run of requests (set-pin refuses it at :134-136) |
| AuthSequences.AdminIsNeverLocked | src/api/auth/auth.controller.ts:49-53 | no run of requests locks an unlocked admin or raises its counter |
| AuthSequences.LockedAccountIgnoresLogins | src/api/auth/auth.controller.ts:62-65 | every login on a locked account gets Account Locked and the store stays the same |
| AuthSequences.CustomerFailuresAccumulate | src/api/auth/auth.controller.ts:72-90 | over logins on one customer, the counter ends at old + the number of wrong PINs (successes included), capped at 5, locked iff that reaches 5; digest and name are kept and nothing else in the store changes |
| AuthSequences.RepeatedWrongPinResponses | src/api/auth/auth.controller.ts:63-92 | wrong PINs in a row get 401 while the count is below 5 (the locking attempt included) and Account Locked afterwards |
| AuthSequences.FifthConsecutiveFailureLocks | src/api/auth/auth.controller.ts:7 | from counter 0, four wrong PINs leave the account unlocked at 4; the fifth locks it; all five get 401 |
| AuthSequences.SuccessDoesNotResetCounter | src/api/auth/auth.controller.ts:73 | four wrong PINs, the right one, then one wrong PIN (differing in its first 72 bytes) lock a customer: the success does not reset the counter |
| AuthSequences.FailuresSurviveSuccess | src/api/auth/auth.controller.ts:72-90 | the same run locks a customer for any stored digest that accepts the right PIN and refuses the wrong one |

## Left out

- Express, CORS, routing and server start-up (`src/index.ts`, `src/api/auth/auth.routes.ts`) are I/O plumbing.
- `src/config/database.ts` is not part of this model. The connection, the exit on a connection failure and the collection getters are database I/O. The customer collection is taken to be available, although the controller imports `getCustomerCollection` while the module exports `getCustomersCollection`.
- Bcrypt.Hash: the digest is a deterministic encoding of the 72 key bytes. bcrypt's random salt, cost factor, one-wayness and fixed 60-character length are not modelled.
- Bcrypt.Key: bcryptjs also appends a NUL byte to the key and cycles short keys over the 72 bytes. PINs that contain the NUL character can therefore collide in ways the model does not capture.
- Concurrent requests are not modelled. Requests are served one at a time, so the lost update on the read-modify-write counter (lines 47 and 84) is not captured.
- Message texts and `console.error` are not modelled. A store or hash failure caught by a catch block is not modelled either. The single 500 the model produces is the admin wrong-PIN throw.
- Request fields are modelled as strings or missing. Non-string JSON values are left out: numbers, booleans, arrays and objects. `express.json()` (src/index.ts:21) accepts an object such as `{"$ne": null}` as `id`. The `findOne` queries (lines 22, 24, 60, 62, 118 and 123) and the set-pin update filter (lines 121 and 126, applied at 141) then read it as a query operator, which selects a document other than the one keyed by the id. This query injection is not modelled.
- An id is taken to key at most one document per collection, as a map does.
