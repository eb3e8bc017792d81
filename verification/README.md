# Verified model of the passwd password manager

passwd keeps a vault of logins, notes, cards and identities. A Go server stores
encrypted items, authenticates accounts and hands out refresh tokens; TypeScript
clients derive keys, encrypt, generate one-time codes, and import and export
vaults as CSV or JSON. This project models three parts of it in Dafny and proves
what they are for.

**Import and export** (`Csv`, `CsvReading`, `Json`, `Items`, `Portable`, `RoundTrip`,
`ForeignRows`, `ImportLaws`). The CSV printer and the quoted/unquoted scanner, the
coercion of any JSON object into a vault item, and the import that recognises both
formats. The main results are the exact round trips: printing any table and scanning
it gives the table back with newlines normalised and blank rows gone; exporting items
to CSV and importing them gives exactly the items with a non-blank column, as logins;
exporting to JSON and importing gives exactly the normalised items that hold
something. Beside them stands what any file imports as, well-formed or not: the lines
of a CSV text cut outside quotes, the columns found by any of their spellings, the
items that hold something; and for any JSON row the first non-blank text offered for
each column and the last favourite spelling.

**Codecs and keys** (`Bits`, `Radix`, `Base32`, `Base64`, `Hotp`, `Hkdf`, `EncString`,
`Account`, `Vault`, `Recents`). The base32 loop with its unmasked 32-bit
accumulator, one-time codes in both languages, HKDF-Expand, the ciphertext
envelope, the two containers an item can be stored in, account recovery and the
offline vault file. AES-GCM is an ideal AEAD: decryption succeeds exactly on the
key and nonce used to encrypt. Key derivations are injective uninterpreted
functions, injective in every argument. Of the JavaScript platform `Account.Ideal` asks only what it does:
`JSON.parse` undoes `JSON.stringify` on values that keep their form (`Json.Plain`),
`Number` is exact on safe integers, and `TextDecoder` drops a byte order mark.

**The authentication server** (`Counting`, `RateLimit`, `Lockout`, `Challenges`, `TotpCheck`,
`Storage`, `ServerSpec`, `Server`, `HandlerLaws`, and the `...Runs` modules with
`TokenHistory`).
`Storage.Memory`, `Lockout.LockoutTracker`, `RateLimit.RateLimiter`,
`Challenges.ChallengeStore` and `Server.Server` are classes with the source's
fields and methods. `ServerSpec` says, separately, what each request decides to
change and to answer; every handler method is proved to do exactly that to the
objects it owns. `HandlerLaws` says of every request, in terms of the tables alone,
exactly when it gets which answer and what every table holds afterwards: `Step` is
proved to follow those laws, so they do not depend on how the decisions are written.
The run modules then prove properties of every sequence of requests from the empty
state: a refresh token is redeemed at most once and never
after a revoke-all, sessions are conserved, every token has a provenance, a passkey
challenge serves once and in time, one-time-code counters increase, wrong guesses are
bounded in every time span, a second factor once enabled is asked for until it is
disabled, and a recovered password is the one in force until the next recovery.

How a run theorem is built: `Decide` picks one change per table, the table's own
history is a fold of those changes (`TokenHistory.Kept`, `ChallengeRuns.Waiting`,
`TotpRuns.LastCounter`, `LockoutRuns.EntriesAfter`), the property is proved of any
history whose changes are permitted, and the history of a server run is shown to be
such a one.

Random tokens, handles and user ids are part of the request, and the run theorems
assume exactly the freshness they need (`FreshTokens`, `FreshHandles`,
`FreshUserIds`). Keyed hashes, password verifiers, the secret box and the passkey
library are uninterpreted functions in `ServerSpec.Env`. Times are integers in
nanoseconds.

## Where the code and its comments differ

- `normalizeItemFields` says unknown keys survive a round trip
  (clients/packages/api-client/src/session.ts:108-111), but the import drops them
  (portable.ts:128-130): `RoundTrip.JsonItemSurvives` says an item survives exactly
  when it has none. An undeclared key can even change the declared part, by naming a
  blank column or the favourite flag: `ForeignRows.DeclaredPartSurvives` says exactly
  when it does not, and `ForeignRows.TitleIsNotHarmless` shows `{"title": "x"}`.
- The import says it drops every unknown key, but the lookup `ALIASES[lower]` also
  finds what the table inherits: a row with a key spelled `constructor` or
  `__proto__` puts a foreign key into the item. `RoundTrip.ImportDropsExtra` says
  when it happens, and `RoundTrip.ImportCanKeepExtra` names such a row.
- `normalizeItemFields` is idempotent where it returns, but `String` throws on an
  object whose own `toString` is data: `Items.NormalizeThrowsExactly`, with an input
  in `Items.NormalizeCanThrow`.
- `TextDecoder` strips a leading byte order mark, so a plaintext that starts with
  one does not come back: `Account.ItemUnchanged`, and `Account.BomIsLost` for the
  mark alone.
- A rotation whose successor token cannot be generated has already marked its
  parent used, so it costs a session: `TokenHistory.Loses` counts it.
- The session list excludes a token at the very instant of its expiry, which
  refresh still accepts: `SessionRuns.ListedAreAccepted`.
- The limiter lets the first call of a window through even at limit 0: the bounds
  use max(1, limit).

## Model

| member | source | states |
|---|---|---|
| Csv.CsvRows | clients/packages/api-client/src/portable.ts:164-202 | the scanning loop, look-ahead included, returns the rows of the normalised text under the one-character-at-a-time machine `ScanAll` |
| Csv.NormalizeEscaped | clients/packages/api-client/src/portable.ts:41-43 | turning CRLF and lone CR into LF commutes with quoting a cell |
| Csv.RoundTrip | clients/packages/api-client/src/portable.ts:34-43 | for every list of rows, scanning what is printed gives the rows with newlines normalised and all-empty rows removed (section 2 of RFC 4180) |
| Csv.RescanIsStable | clients/packages/api-client/src/portable.ts:169-201 | a table read from any text prints and reads back as itself |
| CsvReading.RowsAre | clients/packages/api-client/src/portable.ts:164-202 | for every text, however its quotes are placed: the rows are the lines cut at the newlines outside quotes, each cut into cells at the commas outside quotes and unquoted, less the all-blank ones |
| Json.SpreadIdempotent | clients/packages/api-client/src/session.ts:117-124 | completing an object with defaults a second time changes nothing |
| Items.NormalizeIdempotent | clients/packages/api-client/src/session.ts:112-140 | normalising the normalised item, written as an object, gives it again |
| Items.NormalizeThrowsExactly | clients/packages/api-client/src/session.ts:129-138 | normalising returns if and only if no value given to `String` is, or holds in an array, an object with its own `toString` |
| Items.NormalizeCanThrow | clients/packages/api-client/src/session.ts:135 | a concrete JSON object on which normalising throws |
| Items.NormalizedItemIs | clients/packages/api-client/src/session.ts:112-140 | part by part what normalising gives: the kind if it is one of three and login otherwise, the text of each column, card and identity completed key by key, the custom fields of the list's objects, the favourite under its spellings, every undeclared key as it was |
| Portable.ToCsv | clients/packages/api-client/src/portable.ts:34-39 | the export loop writes the printed table of a header and one row per item |
| Portable.NormalizeRow | clients/packages/api-client/src/portable.ts:127-145 | the two import loops compute the item of a foreign row (the meaning of the computation is `ForeignRows.ImportedRow`) |
| ForeignRows.ImportedRow | clients/packages/api-client/src/portable.ts:127-145 | whatever its keys are called, an imported row's column f is the first non-blank text any entry offers for f, its favourite flag that of the last entry spelling it, its type, card, identity and fields the row's own, completed |
| ImportLaws.AliasesAre | clients/packages/api-client/src/portable.ts:94-122 | for every key: exactly the spellings written out name the column, column by column |
| ImportLaws.NamesIs | clients/packages/api-client/src/portable.ts:136-142 | an entry names a column if and only if its key, trimmed and in lower case, is one of the column's spellings |
| ImportLaws.RowReads | clients/packages/api-client/src/portable.ts:78-90 | a CSV row under any header imports as the login whose columns are the cells under the first heading that names them, "" when there is none or the row is short, and no other key |
| ImportLaws.CsvImportReads | clients/packages/api-client/src/portable.ts:50-91 | importing any text that is not blank and does not look like JSON gives, in order, the items its lines say that hold something, or the error when there are none |
| ImportLaws.ListImports | clients/packages/api-client/src/portable.ts:59-72 | importing a JSON file that is a list, or has one under `items`, gives every element normalised, if it holds something; an error when an element is null or cannot be converted |
| ImportLaws.ImportErrors | clients/packages/api-client/src/portable.ts:50-71 | the complaints about a file as a whole, each if and only if: nothing but space, not JSON, no list |
| ForeignRows.FirstNonBlankIs | clients/packages/api-client/src/portable.ts:142 | the first non-blank text is the one at the first place that has one, and blank exactly when none has |
| ForeignRows.LastSomeIs | clients/packages/api-client/src/portable.ts:137-140 | the last favourite is the one at the last place that spells it, and absent exactly when none does |
| Portable.NormalizeDeclared | clients/packages/api-client/src/portable.ts:131-144 | on an object with only declared keys the import's mapping is `normalizeItemFields` itself |
| RoundTrip.ExportNeedsNoTrim | clients/packages/api-client/src/portable.ts:51-53 | the outer trim removes nothing from an export and the format detection takes it for CSV |
| RoundTrip.CsvRoundTrip | clients/packages/api-client/src/portable.ts:74-91 | importing a CSV export gives, in order, exactly the items with a name, url, username, password, totp or notes other than "", as logins with normalised columns and the favourite flag, and an error when there are none |
| RoundTrip.NotesAreKept | clients/packages/api-client/src/portable.ts:147-160 | an item with notes comes back from a CSV export, whatever else it lacks |
| RoundTrip.NonEmptyIs | clients/packages/api-client/src/portable.ts:147-160 | an item is kept if and only if one of six columns, the card's number, the identity's name or e-mail, or a custom field says something |
| RoundTrip.CardNumberIsKept | clients/packages/api-client/src/portable.ts:155 | an item with nothing but a card number is kept |
| RoundTrip.ImportDropsExtra | clients/packages/api-client/src/portable.ts:128-144 | an imported item has no key outside the declared ones if and only if no key of its row spells a name the alias table inherits |
| RoundTrip.ImportCanKeepExtra | clients/packages/api-client/src/portable.ts:141 | the object with the one key `constructor` imports, with a key the client does not declare |
| RoundTrip.JsonItemSurvives | clients/packages/api-client/src/portable.ts:70-71 | a normalised item comes back from its JSON form if and only if it has no undeclared key |
| ForeignRows.DeclaredPartSurvives | clients/packages/api-client/src/portable.ts:131-144 | the declared part of a normalised item survives its JSON form if and only if no undeclared key offers text to a blank column, the last favourite spelling agrees with the flag, and every conversion on the way succeeds |
| ForeignRows.TitleIsNotHarmless | clients/packages/api-client/src/portable.ts:96 | a concrete item whose undeclared key `title` comes back as its name |
| RoundTrip.JsonRoundTrip | clients/packages/api-client/src/portable.ts:25-72 | importing the JSON export of objects with declared keys gives the normalised items that hold something, in order |
| Base32.PushBits | clients/packages/crypto/src/totp.ts:55 | however often the unmasked accumulator has wrapped, a step appends exactly five bits to the pending ones |
| Base32.Base32Decode | clients/packages/crypto/src/totp.ts:45-63 | the loop outputs exactly the whole bytes, 5n/8 of them rounded down, of the unbounded 5n-bit string, or null on any foreign character or empty input |
| Base32.DecodesEverySpelling | clients/packages/crypto/src/totp.ts:43-48 | the decoder inverts the encoding of section 6 of RFC 4648 on every non-empty byte string, in any ASCII casing, with spaces and dashes anywhere and padding at the end |
| Base64.AtobBtoa | clients/packages/crypto/src/primitives.ts:20-31 | decoding inverts encoding on every byte string |
| Hotp.HotpTs | clients/packages/crypto/src/totp.ts:67-85 | `hotp` shows exactly `digits` decimal digits of the truncation of section 5.3 of RFC 4226 of the MAC over the 8-byte counter |
| Hotp.PutUint64 | backend/internal/auth/totp.go:76-77 | the counter is written most significant byte first |
| Hotp.TotpAtGo | backend/internal/auth/totp.go:70-89 | the server's code is the client's code for the same step and six digits, with every index in range |
| Hotp.RfcExample | backend/internal/auth/totp.go:83-87 | the truncation gives the value of the worked example of section 5.4 of RFC 4226 |
| Hotp.CodesAgree | backend/internal/auth/totp.go:83-88 | the six characters name the truncation modulo 10^6 |
| Hotp.TotpCode | clients/packages/crypto/src/totp.ts:88-96 | the code of the current step; `secondsLeft` is in 1..period and is exactly the time until the step next changes |
| Hkdf.HkdfExpand | clients/packages/crypto/src/primitives.ts:60-76 | the loop gives the first `length` bytes of T(1), T(2), ... of section 2.3 of RFC 5869, for every length up to 255 * 32 |
| Hkdf.ShorterIsPrefix | clients/packages/crypto/src/primitives.ts:64-75 | a shorter output is a prefix of a longer one |
| EncString.ParseSerialized | clients/packages/crypto/src/encstring.ts:16-30 | parsing inverts serialising if and only if the type is AES-GCM and neither part is empty; otherwise it is the error named |
| EncString.ParsesExactly | clients/packages/crypto/src/encstring.ts:20-30 | any text parses to an envelope if and only if it is a prefix that reads as type 1, a dot, and two non-empty base64 parts around the only bar |
| Account.UnwrapWrapped | clients/packages/crypto/src/account.ts:69-77 | a wrapped key unwraps under the wrapping key and under no other |
| Account.KeyedItemDecrypts | clients/packages/crypto/src/account.ts:118-145 | a per-item-keyed container decrypts to its plaintext under exactly the User Keys with the writer's item key (`ItemsNeedTheKey` says which those are) |
| Account.LegacyItemDecrypts | clients/packages/crypto/src/account.ts:131-141 | a bare EncString decrypts by the same reader, because none parses as a container, under the same keys |
| Account.ItemsNeedTheKey | clients/packages/crypto/src/account.ts:64-145 | for User Keys of at least 32 bytes, an item in any of its three stored forms decrypts under a key if and only if the key's first 32 bytes are those of the key that wrote it |
| Account.ContainerHoldsKeys | clients/packages/crypto/src/account.ts:118-128 | the container holds the item key wrapped under the User Key's first 32 bytes, and the plaintext under the item key |
| Account.ItemUnchanged | clients/packages/crypto/src/account.ts:84-87 | an item comes back unchanged if and only if it does not start with a byte order mark |
| Account.BomIsLost | clients/packages/crypto/src/primitives.ts:16-18 | the text made of a byte order mark alone comes back empty |
| Account.UnlocksExactly | clients/packages/crypto/src/account.ts:188-212 | a wrapped User Key unlocks if and only if identifier, password and parameters are those it was wrapped for, up to normalisation |
| Account.AuthIsNotTheKey | clients/packages/crypto/src/account.ts:223-234 | what the server gets to verify a recovery code by is never the key that opens a recovery blob, and tells any two codes apart |
| Account.RecoveryTakesEffect | clients/packages/crypto/src/account.ts:279-293 | a recovery goes through if and only if its code is the enrolled one, up to normalisation; then the new password unlocks the User Key, and otherwise nothing changes |
| Account.UserKeyNeverChanges | clients/packages/crypto/src/account.ts:163-293 | over any number of enrolments, recoveries and writes: the current password and no other unlocks the User Key of registration, the enrolled code and no other recovers it, every item ever written decrypts |
| Vault.LastFileOpens | clients/packages/crypto/src/vault.ts:50-132 | after any run of create, save and change-password, the last file opens with the current password to the last payload and the original User Key, and with any password not NFKC-equal it fails |
| Vault.OpensExactly | clients/packages/crypto/src/vault.ts:83-108 | for any file text and password: each error if and only if the step it names fails first, and otherwise which state and payload |
| Vault.PayloadNeedsTheKey | clients/packages/crypto/src/vault.ts:50-61 | the payload of a saved file reads under a User Key, of at least 32 bytes, if and only if its first 32 bytes are the vault's |
| Vault.ChangeTakesEffect | clients/packages/crypto/src/vault.ts:65-132 | creating a vault and changing its password take the new salt and parameters, and the change keeps the User Key |
| Recents.StoredIsRecentHistory | clients/apps/desktop/src/storage.ts:108-131 | after any opens and clears the stored list has no path twice and is the first 8 of the unbounded most-recent-first history |
| Recents.HistoryIs | clients/apps/desktop/src/storage.ts:121-131 | the history holds exactly the opens followed by no clear and no open of the same path, latest first |
| RateLimit.RateLimiter.Allow | backend/internal/server/middleware.go:84-98 | one call's effect on the counters and its answer |
| RateLimit.LimiterBounds | backend/internal/server/middleware.go:68-98 | for every call sequence with a non-decreasing clock: at most `limit` calls of a key pass in each window, from the call that opens it to its end, and at most twice that in any closed interval of a window's length |
| RateLimit.RefusedExactly | backend/internal/server/middleware.go:84-98 | after any calls, a call is refused if and only if `limit` calls of its key passed in the window still open |
| Lockout.LockoutTracker.Locked | backend/internal/server/middleware.go:163-168 | a key is locked strictly before its `lockedTill` |
| Lockout.LockoutTracker.RecordFailure | backend/internal/server/middleware.go:170-183 | counts the failure; at `maxFails` it locks and starts counting again |
| Lockout.LockoutTracker.Reset | backend/internal/server/middleware.go:185-189 | forgets the key and no other |
| Lockout.FailuresOverSpan | backend/internal/server/middleware.go:146-189 | in every run of gated attempts without a reset of the account, the failures over a span T number at most maxFails * (T / lockFor + 1), and at most maxFails in a half-open window of one lock |
| Lockout.LockedExactly | backend/internal/server/middleware.go:146-189 | after any attempts, a key is locked if and only if the last full group of `maxFails` failures since its last reset is less than `lockFor` old; never before `maxFails` failures |
| Challenges.ChallengeStore.PutEntry | backend/internal/server/handlers_webauthn.go:50-59 | sweeps the expired entries and adds the new one |
| Challenges.ChallengeStore.TakeEntry | backend/internal/server/handlers_webauthn.go:63-74 | removes the entry in any case and returns it only while alive |
| Challenges.ChallengeStore.Gc | backend/internal/server/handlers_webauthn.go:76-83 | drops exactly the expired entries |
| TotpCheck.VerifyTOTPAt | backend/internal/auth/totp.go:51-68 | the loop over the skews returns the counter of the first one whose code matches |
| TotpCheck.AcceptedNearClock | backend/internal/auth/totp.go:57-65 | for any clock, the counter of an accepted code is that of the clock or of half a minute before or after it, and the code is the one for that counter |
| TotpCheck.AcceptedCodes | backend/internal/auth/totp.go:48-67 | a code is accepted if and only if, spaces aside, it is that of the current step or of a neighbour |
| TotpCheck.VerifiedExactly | backend/internal/auth/totp.go:51-68 | a code is accepted with a counter if and only if the secret decodes and the trimmed code is that of the first of now, half a minute before and half a minute after that it fits, with that instant's counter |
| TotpCheck.TrimmedExactly | backend/internal/auth/totp.go:52 | trimming takes away space at both ends, and leaves none there |
| Storage.Memory.CreateUser | backend/internal/storage/memory.go:36-45 | adds the row and its index entry, or reports the conflict and changes nothing |
| Storage.Memory.GetUserByIdentifierHash | backend/internal/storage/memory.go:47-55 | the row the index names |
| Storage.Memory.SetUserTOTP | backend/internal/storage/memory.go:67-79 | sets secret and flag and restarts the counter at 0 |
| Storage.Memory.SetUserTOTPCounter | backend/internal/storage/memory.go:81-91 | sets the last counter alone |
| Storage.Memory.SetUserRecovery | backend/internal/storage/memory.go:93-108 | sets the recovery key and verifier alone |
| Storage.Memory.RotateMasterPassword | backend/internal/storage/memory.go:110-123 | sets verifier, wrapped key and KDF parameters alone |
| Storage.Memory.DeleteAccount | backend/internal/storage/memory.go:125-162 | the sequence of deleting loops computes `DeleteAccountIn`, or reports the missing user and changes nothing |
| Storage.Memory.CreateWebAuthnCredential | backend/internal/storage/memory.go:164-174 | refuses a credential id that is already there, under any row and user |
| Storage.Memory.ListWebAuthnCredentials | backend/internal/storage/memory.go:176-187 | exactly the user's rows, each once, oldest first |
| Storage.Memory.CountWebAuthnCredentials | backend/internal/storage/memory.go:189-199 | the number of the user's rows |
| Storage.Memory.UpdateWebAuthnSignCount | backend/internal/storage/memory.go:201-213 | one row of the credential, whichever the map yields first, gets the count, and nothing else changes |
| Storage.Memory.DeleteWebAuthnCredential | backend/internal/storage/memory.go:215-224 | removes the row only for its owner |
| Storage.Memory.MarkRefreshTokenUsed | backend/internal/storage/memory.go:294-304 | marks the token and keeps it |
| Storage.Memory.DeleteRefreshTokensForUser | backend/internal/storage/memory.go:306-315 | removes exactly the user's tokens |
| Storage.Memory.ListRefreshTokensForUser | backend/internal/storage/memory.go:317-329 | exactly the user's unused unexpired tokens, each once, newest first |
| Storage.LookupIsScan | backend/internal/storage/memory.go:47-55 | with the index exact, looking an identifier hash up is scanning the users for it |
| Storage.CreateUserKeepsIndex | backend/internal/storage/memory.go:36-45 | creating a user keeps the index exact if and only if the row id is new |
| Storage.SignCountDetermined | backend/internal/storage/memory.go:201-213 | with credential ids unique the sign-count update does not depend on map order |
| Storage.DeleteAccountExact | backend/internal/storage/memory.go:125-162 | removes exactly the rows that name the user; every other row keeps its value, the index stays exact and the audit list keeps its order |
| Server.Server.constructor | backend/internal/server/server.go:57-69 | five failures lock for 15 minutes, challenges live two minutes, and the store is empty |
| Server.Server.IssueTokens | backend/internal/server/handlers_auth.go:273-292 | stores one unused token for the user, for 30 days, or fails and stores none |
| Server.Server.HandleRegister | backend/internal/server/handlers_auth.go:52-95 | does exactly what `DecideRegister` decides, on every path |
| Server.Server.VerifyLoginTOTP | backend/internal/server/handlers_2fa.go:24-38 | accepts a code only above the last counter, and then consumes it |
| Server.Server.HandleLogin | backend/internal/server/handlers_auth.go:113-194 | does exactly what `DecideLogin` decides: lock first, password, enrolled factors, tokens, reset, audit (what that is: `HandlerLaws.LoginAnswers`) |
| Server.Server.HandleRefresh | backend/internal/server/handlers_auth.go:207-246 | does exactly what `DecideRefresh` decides: unknown, expired, reused, rotated |
| Server.Server.HandleDeleteAccount | backend/internal/server/handlers_auth.go:251-267 | does exactly what `DecideDeleteAccount` decides |
| Server.Server.HandleListSessions | backend/internal/server/handlers_sessions.go:18-38 | refuses an empty user id and otherwise lists exactly the live sessions, newest first |
| Server.Server.HandleLogoutAll | backend/internal/server/handlers_sessions.go:43-56 | does exactly what `DecideLogoutAll` decides |
| Server.Server.HandleRecoveryEnable | backend/internal/server/handlers_recovery.go:40-63 | does exactly what `DecideRecoveryEnable` decides |
| Server.Server.HandleRecoveryDisable | backend/internal/server/handlers_recovery.go:65-74 | does exactly what `DecideRecoveryDisable` decides |
| Server.Server.HandleRecoveryComplete | backend/internal/server/handlers_recovery.go:120-185 | does exactly what `DecideRecoveryComplete` decides: the password is rotated and the sessions revoked even when no token can be issued (what that is: `HandlerLaws.RecoveryAnswers`) |
| Server.Server.HandleTOTPSetup | backend/internal/server/handlers_2fa.go:58-90 | does exactly what `DecideTotpSetup` decides |
| Server.Server.HandleTOTPEnable | backend/internal/server/handlers_2fa.go:92-119 | does exactly what `DecideTotpEnable` decides (what that is: `HandlerLaws.EnableAnswers`) |
| Server.Server.HandleTOTPDisable | backend/internal/server/handlers_2fa.go:121-148 | does exactly what `DecideTotpDisable` decides |
| Server.Server.WebAuthnUserFor | backend/internal/server/handlers_webauthn.go:101-111 | hands the library exactly the user's passkeys |
| Server.Server.HandleWebAuthnRegisterBegin | backend/internal/server/handlers_webauthn.go:195-220 | does exactly what `DecidePasskeyRegisterBegin` decides |
| Server.Server.HandleWebAuthnRegisterFinish | backend/internal/server/handlers_webauthn.go:222-273 | does exactly what `DecidePasskeyRegisterFinish` decides; the challenge is gone on every path past the take |
| Server.Server.HandleWebAuthnDelete | backend/internal/server/handlers_webauthn.go:179-193 | does exactly what `DecidePasskeyDelete` decides |
| Server.Server.HandleWebAuthnLoginBegin | backend/internal/server/handlers_webauthn.go:277-323 | does exactly what `DecidePasskeyLoginBegin` decides |
| Server.Server.HandleWebAuthnLoginFinish | backend/internal/server/handlers_webauthn.go:325-397 | does exactly what `DecidePasskeyLoginFinish` decides |
| Server.Server.Handle | backend/internal/server/server.go:73 | one request is one `Step`, and leaves credential ids unique |
| Server.Server.Serve | backend/internal/server/server.go:72-73 | serving a whole run leaves the server in the state, and gives the answers, that the run theorems speak of |
| HandlerLaws.RegisterAnswers | backend/internal/server/handlers_auth.go:52-95 | the answer of a registration, each exactly when, and the state it leaves: the row of a new account field by field, with the verifier and keys of the request, under its identifier hash |
| HandlerLaws.LoginAnswers | backend/internal/server/handlers_auth.go:113-194 | the answer of a login, each if and only if: locked; refused for an unknown account or wrong password; for the right password a session on it alone exactly when neither TOTP nor a passkey is enrolled, the second factor asked for exactly when one is and no code is given, a session on the code exactly when TOTP is on and the code fits an instant above the last counter, refused otherwise; and the whole next state |
| HandlerLaws.RefreshAnswers | backend/internal/server/handlers_auth.go:207-246 | the answer of a refresh and the whole next state: a session exactly for a stored, unexpired, unused token, its successor stored and the parent marked; a reuse revokes every token of the user |
| HandlerLaws.DeleteAnswers | backend/internal/server/handlers_auth.go:251-267 | after an accepted deletion no row of any table names the user and every other row is as before; otherwise nothing changes |
| HandlerLaws.LogoutAnswers | backend/internal/server/handlers_sessions.go:43-56 | a logout-all leaves exactly the other users' tokens, and every other table as it was |
| HandlerLaws.RecoveryEnableAnswers | backend/internal/server/handlers_recovery.go:40-63 | recovery is enabled exactly for a complete request of an account, with the key and verifier of the request and no other field changed |
| HandlerLaws.RecoveryDisableAnswers | backend/internal/server/handlers_recovery.go:65-74 | disabling clears the two recovery fields of the account and no other |
| HandlerLaws.RecoveryAnswers | backend/internal/server/handlers_recovery.go:120-185 | the answer of a recovery, each exactly when, and the whole next state: the account's row has the verifier and wrapped key of the request and the chosen KDF parameters, its other fields and every other row are as before, and no token of the user is left but the one answered |
| HandlerLaws.SetupAnswers | backend/internal/server/handlers_2fa.go:58-90 | a setup stores the sealed secret of the request, turned off, for an account without TOTP, and else changes nothing |
| HandlerLaws.EnableAnswers | backend/internal/server/handlers_2fa.go:92-119 | an enable is accepted exactly when the code fits the stored secret; then TOTP is on, the secret kept and the counter restarted, no other field changed |
| HandlerLaws.DisableAnswers | backend/internal/server/handlers_2fa.go:121-148 | a disable is accepted exactly when TOTP is off already or the code fits; then TOTP is off and the secret gone |
| HandlerLaws.EnrolBeginAnswers | backend/internal/server/handlers_webauthn.go:195-220 | when an enrolment begins, and the challenge it leaves for the user, alive for two minutes |
| HandlerLaws.EnrolFinishAnswers | backend/internal/server/handlers_webauthn.go:222-273 | when an enrolment succeeds: a live challenge of the same user and an attestation with a credential id not stored yet; and the passkey row it stores |
| HandlerLaws.RemoveAnswers | backend/internal/server/handlers_webauthn.go:179-193 | a passkey is removed exactly for the user its row names, and nothing else changes |
| HandlerLaws.AssertBeginAnswers | backend/internal/server/handlers_webauthn.go:277-323 | when a passkey login begins: unlocked, right password, a passkey enrolled; and the challenge it leaves |
| HandlerLaws.AssertFinishAnswers | backend/internal/server/handlers_webauthn.go:325-397 | the answer of a passkey login, each if and only if, and the whole next state: a session exactly for the right password with a live challenge of the same account and an assertion the library validates against the account's own passkeys |
| ServerRuns.StoreInvAlways | backend/internal/storage/memory.go:36-174 | in every state reached with fresh user ids `byIDHash` is the exact inverse of the users' identifier hashes, credential ids are unique and tokens are kept under their hash |
| TokenHistory.RedeemedOnce | backend/internal/storage/memory.go:270-304 | under any permitted changes a token is rotated at most once |
| TokenHistory.RevokedForGood | backend/internal/storage/memory.go:306-315 | a token stored for a user before a revoke-all of the user is never in the table again |
| TokenHistory.SessionsConserved | backend/internal/storage/memory.go:270-315 | under any permitted changes a user's unused tokens number the authentications since the last revoke-all less the tokens lost since |
| SessionRuns.RedeemedAtMostOnce | backend/internal/server/handlers_auth.go:226-245 | in every run a refresh token is redeemed successfully at most once |
| SessionRuns.RevocationCauses | backend/internal/server/handlers_auth.go:229-235 | exactly a detected reuse, a recovery that goes through, a logout-all and an account deletion revoke all of a user's sessions |
| SessionRuns.RevokedNeverRedeemed | backend/internal/server/handlers_recovery.go:154-158 | after a revoke-all no token issued to the user before it ever succeeds again |
| SessionRuns.CountsMean | backend/internal/server/handlers_auth.go:217-246 | the balance counts sessions answered other than by rotation, and loses unused tokens to expiry clean-up and to failed rotations |
| SessionRuns.SessionBalance | backend/internal/server/handlers_auth.go:163-246 | in every reachable state the number of a user's unused tokens is that balance; rotation leaves it unchanged |
| SessionRuns.ListedAreAccepted | backend/internal/storage/memory.go:317-329 | the session list is exactly the unused tokens before expiry, and refresh accepts exactly those and the ones at the instant of expiry |
| SessionRuns.SessionEvidence | backend/internal/server/handlers_auth.go:129-178 | whenever a session is answered its cause holds in the state before: password and no factor, password and unused code, password and live challenge of the user, accepted recovery, or an unused parent token |
| SessionRuns.EveryTokenDescends | backend/internal/server/handlers_auth.go:237-245 | every token in every reachable state goes back, through rotations for one user, to a session that had its evidence |
| ChallengeRuns.ChallengeServesOnce | backend/internal/server/handlers_webauthn.go:357-361 | a challenge handle serves at most one success, login or enrolment |
| ChallengeRuns.ChallengeWasPut | backend/internal/server/handlers_webauthn.go:50-74 | a success comes at most two minutes after a begin that put the challenge for the same user |
| TotpRuns.SetCauses | backend/internal/server/handlers_2fa.go:58-148 | exactly a setup, an accepted enable and an accepted disable set a user's secret |
| TotpRuns.LoginConsumes | backend/internal/server/handlers_auth.go:155-163 | a login answered with a session on a code has consumed the counter that the bounds count |
| TotpRuns.HistoryInTime | backend/internal/auth/totp.go:56-65 | each counter consumed is that of the clock step at its acceptance or of a neighbour (before it, in the first step after the epoch, the counter wraps) |
| TotpRuns.CountersIncrease | backend/internal/server/handlers_2fa.go:29-36 | between two calls that set the secret the counters consumed at login strictly increase, whatever the clock does |
| TotpRuns.LoginsBounded | backend/internal/server/handlers_2fa.go:24-38 | while the clock crosses D steps at most D + 3 codes are accepted (section 5.2 of RFC 6238) |
| LockoutRuns.DecidesGuarded | backend/internal/server/handlers_auth.go:120-190 | every handler that can authenticate asks the lock first, records exactly its refusals, resets exactly on a session, and no other handler touches the lockout |
| LockoutRuns.RefusalsAre | backend/internal/server/handlers_recovery.go:130-184 | what the bound counts: the steps that refuse an attempt on the account |
| LockoutRuns.GuessesBounded | backend/internal/server/handlers_webauthn.go:290-376 | in every run, over any steps in which no attempt on the account succeeds, the attempts refused in a span T number at most 5 * (T / 15 min + 1), and at most 5 in a half-open window of 15 minutes |
| LockoutRuns.AccountLockedExactly | backend/internal/server/middleware.go:146-189 | in every run an account is locked if and only if the last full group of five refusals since its last session is less than 15 minutes old |
| AccountRuns.SecondFactorHolds | backend/internal/server/handlers_auth.go:139-162 | in every run, from an accepted enable to the user's next accepted disable no session is answered to the user on the password alone |
| AccountRuns.RecoveredPasswordHolds | backend/internal/server/handlers_recovery.go:142-158 | in every run, from a recovery to the account's next one, an unlocked login of the account gets past the password exactly when the verifier of that recovery accepts it, and is otherwise refused for the password |

## Left out

- Handle: handlers are serialised, each one atomic step with one reading of the clock; `handleRefresh` and `verifyLoginTOTP` read and write the store in separate calls, and interleavings of two handlers are not modelled.
- Handle: request decoding, response bodies, logging, access tokens and the rate-limit middleware's wiring are not part of a step; a request carries the user id its access token proved.
- HandleLogin: the dummy verification that equalises timing has no effect on the state and is not modelled.
- HandleWebAuthnLoginFinish: takes credential ids to be unique, which `StoreInvAlways` proves of every reachable state and `Handle` keeps; without that the row updated would depend on map order.
- HandleWebAuthnRegisterFinish: parsing and verifying the attestation are one uninterpreted function.
- DeleteAccount: ciphers and shares appear as rows that deletion removes; the cipher, share, audit-list, prelogin and status handlers are not modelled.
- DeleteAccountExact: whether a row's owner exists is not an invariant of the source, so deletion is stated as a step.
- NormalizeIdempotent: says nothing where a `String` call throws; `NormalizeThrowsExactly` says where that is.
- JsonRoundTrip: the JSON text is any text the parser reads back as the exported document; object keys keep their written order, so integer-like keys, which JavaScript moves to the front, are not modelled.
- NormalizeRow: the key an inherited `constructor` turns into is the text a JavaScript engine prints for a native function, taken as V8 prints it.
- CsvRows: strings are sequences of Unicode scalar values; lone surrogates are not modelled.
- Base32Decode: upper-casing a non-ASCII character is a parameter.
- HotpTs: counters are exact integers; JavaScript numbers are so below 2^53.
- LoginsBounded: no instant is before 1970, where the unsigned conversion of the clock has wrapped and its steps no longer line up with half minutes; `HistoryInTime` likewise. Both also ask for less than 2^64 seconds, which the int64 of `Unix` cannot reach.
- ParseSerialized: the converse does not hold, because `Number` accepts several spellings of the type.
- UserKeyNeverChanges: the RSA sharing keypair and the hashes sent to the server are not part of the run.
- LastFileOpens: the key-derivation parameters keep their form in JSON (`Json.Plain`): no integer-like names, no numbers JSON cannot write. Reading and writing the file are outside; the file text is passed on.
- StoredIsRecentHistory: the list starts empty and is read back as written; the base name and time of an entry are given with it.
- The SQL store, configuration, CORS and headers, the user interface, the extension's host matching and the secret box are not part of this model.
