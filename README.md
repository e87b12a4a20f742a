# Secret-share vault: a Dafny model

This project models the core of a one-time secret-sharing server. A sender
posts a secret and gets back a share id. A recipient exchanges the id for
the plaintext. The exchange is gated by an expiry date, an optional view
quota, an optional password and, when the sender gave an e-mail address, a
six-digit one-time code (OTP) mailed to that address.

The server is one Express handler file, `server/src/rest-api.ts`. The model
follows its two endpoints:

- **Create** (`POST /api/secret`) validates the body against a zod schema. It derives a key
  from the new id, encrypts the secret with AES-256-GCM and stores
  `ciphertext || tag`. It hashes the password with argon2 and inserts a
  `shared_secrets` row.
- **Unlock** (`POST /api/secret/:id/unlock`) validates the body and then
  runs one transaction on the locked row. The gates come in a fixed order: not found (404),
  expired (410, row deleted), quota used up (410, row deleted), password
  (401), OTP (401 with `require2FA`, possibly issuing and mailing a code),
  decrypt, and finally consuming one view (row updated or deleted) and
  answering 200 with the secret.

Modules:

- `Wrappers`: `Option`.
- `Validation`: JSON bodies; the zod schemas as data (`Field`, `Check`) with
  an interpreter; the two schemas of the server; typed parse results.
- `Encryption`: bytes, key/nonce/tag sizes, the crypto primitives as
  the function-valued fields of a `Crypto` value, and the split of the stored buffer
  (Node `Buffer.slice` semantics). `Laws` states the two round trips assumed of
  the primitives: a value verifies against its own argon2 hash, and AES-GCM
  decryption under the same key and nonce inverts encryption. The other
  assumptions are the fixed output types of the primitives (`Key`, `Tag`,
  `Hash`), listed under "Left out". A symbolic
  instance (`SymbolicCrypto`, `SymbolicCryptoLaws`) shows the laws are
  satisfiable.
- `Records`: the `shared_secrets` row (fields from the two migrations),
  JavaScript truthiness of nullable columns, the row built by create, the
  row invariant `WellFormed`.
- `Gates`: the unlock transaction on one row as a pure function
  `UnlockRecord`, with lemmas for each gate.
- `VaultCore`: the table as `map<string, SecretRecord>` inside the class
  `Vault`. `Create`, `Unlock` and `Transaction` are imperative methods proved
  equal to the pure `CreateSpec` / `UnlockSpec` / `TransactionSpec`. They keep the table
  invariant: every row is well formed, and its buffer is the encryption of
  the secret it was created with, which a ghost map records. Lemmas follow one
  share across several requests.

The environment is passed in as parameters. That covers the clock (integer milliseconds), the
new id, the random nonce, argon2's random salt, the `Math.random()` draw
behind a code (a real in [0, 1)), the `SECRET_SALT` variable and the e-mail
format check. The verification mail is returned by `Unlock` instead of sent.

Where the behaviour one would expect of such a service and the code
disagree, the model follows the code:

- A row is expired when `expires_at < now`. At the instant `now == expires_at` it
  can still be unlocked.
- Without `maxViews` a share has unlimited views until it expires. There is no
  default of a single view.
- After the last permitted view the row is deleted. The next unlock therefore
  answers 404 (not found), not 410 (gone); `QuotaAllowsExactlyN` states this.
- The OTP prompt is a bare `{ require2FA: true }`. It does not report whether
  the password was accepted.
- A failed decrypt throws inside the transaction. That rolls back everything,
  including an `otp_verified` update made in the same call, and answers 500.
- At the instant a code expires (`otp_expires_at == now`), a request without
  a code replaces it, but a request carrying the code still has it checked
  and accepted (`CodeExpiryInstant`).
- The quota gate never fires on rows the server itself created. A stored
  counter is always at least 1 (`WellFormedIsNotExhausted`).

## Model

| member | source | states |
|---|---|---|
| `Validation.CreateAcceptedIff` | server/src/rest-api.ts:39-45 | the create schema accepts a body iff it is an object with `secret` a non-empty string, `expiresInDays` an integer in 1..30, `password` (if present) a string of length 1..128, `maxViews` (if present) a positive integer and `email` (if present) in e-mail format |
| `Validation.ParseCreateSound` | server/src/rest-api.ts:39-49 | every parsed create request meets the typed rules (non-empty secret, 1..30 days, password length, positive quota) |
| `Validation.CreateBodyRoundTrip` | server/src/rest-api.ts:39-49 | the JSON body for a typed request parses back to that request exactly when the request satisfies the rules |
| `Validation.UnlockAcceptedIff` | server/src/rest-api.ts:100-108 | the unlock schema accepts exactly an absent or null body or an object whose `password` is non-empty and whose `twoFACode` has 6 characters, each if present; parsed fields keep those bounds |
| `Validation.UnlockBodyRoundTrip` | server/src/rest-api.ts:100-108 | an unlock body parses back to its password and code exactly when they meet the schema |
| `Encryption.ServerSalt` | server/src/rest-api.ts:55 | the salt is `SECRET_SALT` when set and non-empty; when it is unset or empty, `DEFAULT_SALT`; never empty |
| `Encryption.SplitTagInvertsConcat` | server/src/rest-api.ts:186-187 | splitting the stored buffer at 16 bytes from the end returns exactly the ciphertext and tag that were concatenated at create time |
| `Encryption.SplitTagPartitions` | server/src/rest-api.ts:186-187 | the two slices always partition the buffer; the tag has 16 bytes iff the buffer has at least 16 |
| `Encryption.DecryptEncrypt` | server/src/rest-api.ts:183-191 | the key re-derived from the id decrypts the stored buffer back to the secret |
| `Records.NewRecordFields` | server/src/rest-api.ts:72-85 | a new row has `views_remaining == max_views`, null for an absent quota or password, an open OTP gate exactly when no e-mail is given, no outstanding code, an expiry of exactly `now + expiresInDays` days (so 1 to 30 days ahead), a password hash that verifies the password and a buffer that decrypts to the secret |
| `Gates.OtpCode` | server/src/rest-api.ts:148 | a drawn code lies in 100000..999999 |
| `Gates.DecimalLength` | server/src/rest-api.ts:148 | a k-digit number prints as k decimal digits |
| `Gates.CodeTextHasSixDigits` | server/src/rest-api.ts:148 | every issued code prints as six digits, the length the unlock schema requires of `twoFACode` |
| `Gates.ExpiredOrExhaustedIsGone` | server/src/rest-api.ts:118-128 | an expired row, or one with a non-zero `max_views` and `views_remaining <= 0`, is deleted and answered 410 whatever password or code is sent |
| `Gates.BadPasswordIsUnauthorized` | server/src/rest-api.ts:130-135 | with a password hash stored, a missing or non-verifying password is answered 401 without `require2FA`, with the row untouched and no plaintext |
| `Gates.LiveCodeIsNotReissued` | server/src/rest-api.ts:141-145 | without a code and with an outstanding unexpired one, the answer is `require2FA`, nothing is mailed and the row is untouched |
| `Gates.CodeIsIssued` | server/src/rest-api.ts:147-165 | otherwise a six-digit code in 100000..999999 is mailed to the recipient, its hash (which verifies it) is stored with expiry `now + 10 min`, nothing else changes, and the answer is `require2FA` |
| `Gates.BadCodeIsRefused` | server/src/rest-api.ts:168-176 | a code sent with no outstanding code, after its expiry or not matching is answered `require2FA` with the row untouched |
| `Gates.OtpVerifiedOnlyByMatchingCode` | server/src/rest-api.ts:168-179 | `otp_verified` goes from false to true only when a matching, unexpired code was sent |
| `Gates.LiveCodeIsNeverOverwritten` | server/src/rest-api.ts:141-152 | an outstanding unexpired code is never replaced, whatever the request |
| `Gates.MailOnlyWhenIssuing` | server/src/rest-api.ts:147-165 | a mail goes out only on the issuing path and only alongside `require2FA` |
| `Gates.UnlockedExactlyWhenGatesPass` | server/src/rest-api.ts:130-203 | plaintext is returned iff the row is neither expired nor used up, the password gate passed (or no password is set), the OTP gate was open or opened by a matching unexpired code in this call, and the decrypt succeeded; it is the decryption of the stored buffer |
| `Gates.SuccessConsumesOneView` | server/src/rest-api.ts:193-203 | after a successful decrypt, a non-zero quota drops by exactly one, the row being deleted when that reaches zero or below; without a quota the counter is unchanged |
| `Gates.UnlockPreservesWellFormed` | server/src/rest-api.ts:113-203 | an unlock keeps a well-formed row well formed, touches only OTP state, the counter and `updated_at` (set to the current instant or left alone), and a stored counter never rises and never drops below one |
| `Gates.WellFormedIsNotExhausted` | server/src/rest-api.ts:124-128 | a well-formed row never trips the quota gate |
| `Gates.CodeExpiryInstant` | server/src/rest-api.ts:143-173 | when `otp_expires_at == now`, a request without a code re-issues one while a request with the matching code is accepted |
| `VaultCore.CreateOutcomes` | server/src/rest-api.ts:47-97 | create answers 400 iff the rules fail and then inserts nothing; it answers 201 and inserts iff the body is valid, the id is fresh and the row's columns fit, leaving other rows alone, with the new row holding the secret; otherwise 500 |
| `VaultCore.UnlockKeepsSecret` | server/src/rest-api.ts:182-203 | on a row holding its secret an unlock never fails to decrypt, returns only that secret, and any stored row still holds it |
| `VaultCore.Vault.constructor` | server/src/rest-api.ts:55 | an empty table with the configured salt |
| `VaultCore.Vault.Create` | server/src/rest-api.ts:47-97 | the endpoint's outcome and new table are `CreateSpec` of the old table, and the table invariant is kept |
| `VaultCore.Vault.Unlock` | server/src/rest-api.ts:105-224 | validation before the transaction; outcome, mail and new table are `UnlockSpec` of the old table; the invariant is kept; a returned secret is the one the share was created with; never a 500 on a valid table |
| `VaultCore.Vault.Transaction` | server/src/rest-api.ts:113-204 | the step-by-step gate chain with early returns and rollback equals `TransactionSpec` on the old table |
| `VaultCore.QuotaAllowsExactlyN` | server/src/rest-api.ts:194-201 | a share with N views left, whose gates the request passes, is revealed by exactly N unlocks before expiry, then the row is gone and the next unlock answers 404 |
| `VaultCore.UnlimitedViewsUntilExpiry` | server/src/rest-api.ts:194-201 | a share without a quota is revealed by every unlock before expiry and its row stays as it is |
| `VaultCore.AtMostViewsLeftReveals` | server/src/rest-api.ts:113-204 | any sequence of unlock requests, whatever their bodies, codes and instants, reveals a limited share at most as many times as its `views_remaining`; a deleted share reveals nothing more |
| `VaultCore.CreatedShareRevealedAtMostMaxViews` | server/src/rest-api.ts:80-81 | a share created with `maxViews` N is revealed at most N times by any unlock requests that follow |
| `Validation.ParseCreate` | server/src/rest-api.ts:39-49 | the create schema's parse; specified by `CreateAcceptedIff`, `ParseCreateSound` and `CreateBodyRoundTrip` |
| `Validation.ParseUnlock` | server/src/rest-api.ts:100-108 | the unlock schema's parse of `req.body ?? {}`; specified by `UnlockAcceptedIff` and `UnlockBodyRoundTrip` |
| `Encryption.Encrypt` | server/src/rest-api.ts:55-63 | key derivation from the id and sealing of the secret as `ciphertext ++ tag`; specified by `DecryptEncrypt` |
| `Encryption.SplitTag` | server/src/rest-api.ts:186-187 | the split of the stored buffer into ciphertext and tag; specified by `SplitTagInvertsConcat` and `SplitTagPartitions` |
| `Encryption.Decrypt` | server/src/rest-api.ts:183-191 | key re-derivation, split and authenticated decryption; specified by `DecryptEncrypt` |
| `Records.NewRecord` | server/src/rest-api.ts:65-85 | the row the create handler inserts; specified by `NewRecordFields` |
| `Gates.IssueOtp` | server/src/rest-api.ts:147-165 | issuing, storing and mailing a new code; specified by `CodeIsIssued` and `MailOnlyWhenIssuing` |
| `Gates.Reveal` | server/src/rest-api.ts:182-203 | decrypt (500 with rollback on failure) and consume a view; specified by `UnlockedExactlyWhenGatesPass`, `UnlockKeepsSecret` and `SuccessConsumesOneView` |
| `Gates.ConsumeView` | server/src/rest-api.ts:193-201 | the counter update or deletion after a decrypt; specified by `SuccessConsumesOneView`, `QuotaAllowsExactlyN` and `AtMostViewsLeftReveals` |
| `Gates.UnlockRecord` | server/src/rest-api.ts:118-204 | the gate chain on one locked row; specified by the `Gates` lemmas from `ExpiredOrExhaustedIsGone` to `CodeExpiryInstant` |
| `VaultCore.CreateSpec` | server/src/rest-api.ts:47-97 | the create endpoint on the table; specified by `CreateOutcomes`, implemented by `Vault.Create` |
| `VaultCore.TransactionSpec` | server/src/rest-api.ts:113-204 | the unlock transaction on the table (404 when the row is missing); implemented by `Vault.Transaction` |
| `VaultCore.UnlockSpec` | server/src/rest-api.ts:105-224 | the unlock endpoint on the table (400 on a bad body); implemented by `Vault.Unlock`, specified across requests by `QuotaAllowsExactlyN`, `UnlimitedViewsUntilExpiry` and `AtMostViewsLeftReveals` |
| `VaultCore.PasswordProtectedShare` | server/src/rest-api.ts:130-135 | a share without e-mail created under a fresh id with fitting columns is created (201); until it expires, `expiresInDays` days later, the right password reveals the secret, and a missing or wrong one gets 401 with the row untouched |
| `VaultCore.EmailGatedShare` | server/src/rest-api.ts:137-180 | a share with e-mail, with or without a password, created under a fresh id with fitting columns is created (201); within its lifetime, with the share's password sent along if it has one, the first unlock mails a code; asking again while it is valid sends nothing; the mailed code reveals the secret up to 10 minutes later and is refused after that |

## Left out

- Cryptography: PBKDF2, AES-256-GCM and argon2 are uninterpreted. Of their
  behaviour the model assumes the two round trips in `Laws` and the output
  types below. A wrong password or code is one for which `verify` answers
  false. Nothing is assumed about collisions or about tags being unforgeable.
- Output types of the primitives, assumed through the types of the `Crypto`
  fields: PBKDF2 yields exactly 32 bytes (`Key`), AES-GCM's tag is exactly
  16 bytes (`Tag`), and every argon2 hash is a non-empty string of at most
  255 characters (`Hash`). Non-emptiness makes a stored hash truthy, so the
  `password_hash` and `otp_hash` tests agree with the columns being set. The
  length bound means a hash never overflows its `varchar(255)` column, so an
  insert or update never fails on it.
- UTF-8 encoding and decoding of the secret are folded into the opaque cipher.
  A JavaScript string with lone surrogates would not round-trip through UTF-8, and
  the model does not capture that.
- String lengths in the schemas are counted in Unicode scalar values. zod counts
  UTF-16 code units, so lengths differ for characters outside the Basic
  Multilingual Plane.
- The zod e-mail regular expression is a parameter (`isEmail`), not modelled.
- `Validation.ParseCreate`: JSON numbers are exact reals (`JNum`), not the
  IEEE doubles `JSON.parse` produces. So `"maxViews": 1e400`, which the source
  reads as `Infinity` and zod's `.int()` refuses (400), is an integral real in
  the model that passes the rules and then fails the column-range check (500).
  And `"expiresInDays": 30.000000000000001`, which the source rounds to 30 and
  accepts (201), is a non-integral real above 30 in the model (400). Bodies
  whose numbers are exact doubles within range are treated alike.
- `Gates.OtpCode`: computed over the reals. The floating-point rounding of
  `100000 + Math.random() * 900000` is not modelled.
- Random-number generation (`randomUUID`, `randomBytes`, `Math.random`, argon2
  salts) is replaced by parameters. Uniqueness of ids is not assumed; a taken id is a failed
  insert (500).
- Dates: `setDate(getDate() + days)` is modelled as adding `days * 86400000`
  ms, so daylight-saving shifts are ignored. The two `new Date()` reads of one
  unlock are taken as one instant, and the database's `now()` for `updated_at`
  is the same instant. On insert, `created_at` and `updated_at` come from the
  columns' `now()` defaults; `NewRecord` takes them to be the handler's clock
  reading `now`.
- The database: row locking and transactions are modelled as one atomic step
  on the map. Concurrency is not modelled. Of the column types, only the integer
  range of `max_views`/`views_remaining` and the 255-character limit of `email`
  are checked (an insert beyond them fails with 500); the `password_hash` and
  `otp_hash` columns cannot overflow because of the `Hash` type above. The `id` column is a
  Postgres `uuid`, but the model compares ids as exact strings. An id that is
  not a valid UUID makes the database raise an error (500); the model answers
  404 instead. A different spelling of a stored UUID (upper case, braces, no
  hyphens) finds the row in the database, so the gates run with their effects
  (deleting an expired row, refusing a password, issuing and mailing a code).
  The key is then derived from the spelling as sent, so the decrypt fails and
  the answer is 500 with the transaction rolled back. The model answers 404 and
  leaves the table alone.
- Mail transport: the code and recipient are returned; subject, text,
  sender, delivery and delivery failure (only logged) are not modelled.
- Express, cors, helmet, rate limiting, the status/JSON plumbing, the example
  endpoints (`server/src/rest-api.ts:234-260`) and the client pages.
