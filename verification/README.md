# Skin-sharing API route handlers, in Dafny

This project models the request handlers at the core of a small web API for
sharing game skins. Three route modules are covered:

- the authenticated skin upload (`PUT /upload`);
- account registration, login, "who am I" and e-mail change
  (`PUT /register`, `POST /login`, `GET /@me`, `PATCH /email`);
- the two public user routes (`GET /{username}`, and the skin listing
  handler `get_user_skins`, which the router does not mount).

Each handler is a pure function or method over an immutable document store.
`Models.Store` holds the `accounts` and `skins` collections in insertion
order, plus the skin files on disk keyed by skin id. A handler returns the
HTTP response and the store it leaves behind. A panic of the handler
(an `unwrap` or `expect` that fails) is modelled as the response
`Response.Panic`.

Files:

- `prelude.dfy` holds bytes, Rust strings as UTF-8 bytes, `Option`, and
  `Env`. `Env` supplies the foreign functions the handlers call but whose
  code is not modelled:
  - the AES/base64 `encrypt`/`decrypt` wrapper;
  - `to_lowercase`;
  - UTF-8 validation and lossy decoding;
  - MIME sniffing;
  - image-size decoding.
- `models.dfy` holds the documents, the store, and the MongoDB
  `find_one`/`find`/`update_one` semantics the handlers rely on. `find_one`
  returns the first match in natural order. `update_one` changes the first
  match. A case-insensitive anchored regex is "equal after lower-casing".
  The file also defines the JSON response bodies.
- `skins.dfy` models the upload: multipart collection, validation in the
  source's order, the image check, the fingerprint, the duplicate checks,
  the file write and the insert.
- `account.dfy` models the account routes. `account_facts.dfy` relates them
  to each other: register then login, login then `@me`, e-mail change then
  login, and the uniqueness invariants.
- `user.dfy` models the public user routes. They return a response and no
  store, so they are read-only by construction.

Nondeterminism and I/O are parameters:

- the fresh UUID (`id`, `uuid`) and the timestamp (`now`);
- the `x-session` header value (`header`);
- each driver call's outcome (`*Io`, where `Some(message)` is a driver
  error);
- the file-system outcome (`FileOutcome`);
- a cursor error at a chosen position (`SkinsIo.cursorError`).

## Model

| member | source | states |
|---|---|---|
| Models.FindAccount | src/routers/account.rs:52 | `find_one` on accounts gives the position of a matching document with no match before it, and gives nothing exactly when no document matches |
| Models.FindSkin | src/routers/skins.rs:117 | `find_one` on skins gives the first matching skin in natural order, and gives nothing exactly when none matches |
| Models.MatchPositions | src/routers/user.rs:31 | the positions a `find` cursor visits: strictly increasing, each a match, and every matching position included |
| Models.SelectSkins | src/routers/user.rs:31-34 | `find` yields exactly the skins that match the filter, in natural order and each once: the k-th result is the skin at the k-th matching position |
| Models.FoundIffExists | src/routers/account.rs:52-68 | `find_one` finds nothing exactly when no account satisfies the filter, which is when the handlers take their `Ok(None)` branch |
| Models.UpdateFound | src/routers/account.rs:133 | "find, then `update_one` by the found id" changes exactly one account that has that id; when ids are unique, it is the account found |
| Models.FindByOwnId | src/routers/account.rs:164 | when ids are unique, looking an account up by its own id finds that account |
| SkinRoutes.Received | src/routers/skins.rs:37 | the field loop stops at the first part the multipart stream fails to deliver; the result is the fields before it, in order |
| SkinRoutes.LastField | src/routers/skins.rs:38-59 | gives the last field with the given name (optionally one with data chunks), with no later such field; gives nothing exactly when there is none |
| SkinRoutes.ReadText | src/routers/skins.rs:39-42 | a text field is read without panic exactly when every chunk arrives and is valid UTF-8; the value is then the last chunk's text, or the previous value if there are no chunks |
| SkinRoutes.ReadSkin | src/routers/skins.rs:51-55 | the skin field is read without panic exactly when every chunk arrives; the bytes are appended to the buffer and `file_size` grows by their count |
| SkinRoutes.Collect | src/routers/skins.rs:31-60 | collection panics exactly when a received field panics. Otherwise the buffer is every skin field's bytes concatenated, the size equals the buffer length, title and description are the last chunk of their last non-empty field, and the file name is the last skin field's |
| SkinRoutes.Rejection | src/routers/skins.rs:62-76 | the empty-file, size, title and description checks in the source's order, each rejection exactly when its limit is exceeded and no earlier check fired; nothing is rejected exactly when all limits hold |
| SkinRoutes.Inspect | src/routers/skins.rs:78-108 | the upload is refused exactly when it sniffs as PNG/JPEG and decodes to a size other than 64x64 or 64x32. Image metadata records the sniffed type and the decoded size. An undecodable image or another type gets zero metadata |
| SkinRoutes.Fingerprint | src/routers/skins.rs:112-114 | the fingerprint exists exactly when the ciphertext of the lossy decoding has at least 48 bytes; it is then that ciphertext's last 48 bytes |
| SkinRoutes.Persist | src/routers/skins.rs:145-165 | a failed file creation panics and leaves the store unchanged. The record is stored exactly when the write and the insert both succeed, and then the whole buffer is the file. A failed write answers 500 with its error and keeps a prefix of the buffer, of length `kept` at most, as the file. A failed insert leaves the written file behind. No other file changes |
| SkinRoutes.Ingest | src/routers/skins.rs:62-165 | the rejections in source order, then the duplicate-hash check before the duplicate-title check. The result is `Created(id)` exactly when every check passes and both writes succeed, with the record appended and the file stored. A failed hash or title lookup answers 500 with the driver's message, and a fingerprint that cannot be taken panics with the store unchanged. Once every check passes, the outcome is exactly that of `Persist` on the new ownerless record. Accounts never change; skins change only on success |
| SkinRoutes.UploadSkin | src/routers/skins.rs:17-183 | 401 without a header or without a session owner; 500 with the driver's message when the session lookup fails. Once authenticated, a panic when a received field panics, and otherwise exactly the outcome of `Ingest` on the collected form, including its rejections, in their order, and its own panics (file creation, short ciphertext). Accounts never change, and skins change only on `Created` |
| SkinRoutes.IngestKeepsSkinsUnique | src/routers/skins.rs:116-133 | with a fresh id, an upload keeps skin ids, fingerprints and case-folded titles unique |
| SkinRoutes.LossyTwinRejected | src/routers/skins.rs:112-123 | two different files whose lossy UTF-8 decodings agree get the same fingerprint, so the second is refused as "already exists" once the first is stored |
| SkinRoutes.ResubmissionRejected | src/routers/skins.rs:116-123 | uploading the same bytes again after a successful upload is refused as a duplicate |
| AccountRoutes.Register | src/routers/account.rs:80-125 | name taken (ignoring case), e-mail taken, and password mismatch are checked in that order, each an if-and-only-if. A failed username lookup, e-mail lookup or insert answers 500 with the driver's message, each at its place in that order. Success appends the new account and is the only change; skins and files never change |
| AccountRoutes.RegisterFixed | src/routers/account.rs:89-111 | corrected `register`: name taken, e-mail taken (looked up lower-cased, as stored) and password mismatch in that order, each an if-and-only-if; the same three driver-error 500s; success appends the new account and is the only change |
| AccountRoutes.LoginWithEffect | src/routers/account.rs:157-181 | for any e-mail ciphertext: a failed lookup answers a plain-text 500 and a failed update, after a credentials match, a JSON 500. On success the accounts are the old ones with one account, whose id is the matched account's id, given the new session, and with unique ids it is the matched account; otherwise nothing changes |
| AccountRoutes.Login | src/routers/account.rs:150-182 | success exactly when an account has the encrypted e-mail and password and both driver calls succeed. The session token is the encrypted UUID. "Account not found." exactly when no credentials match. A failed lookup answers a plain-text 500, and a failed update after a match a JSON 500. On success one account with the matched account's id gets the session, and when ids are unique only the matched account's session changes |
| AccountRoutes.LoginFixed | src/routers/account.rs:153-158 | corrected `login`, looking up the lower-cased e-mail that `register` stores: success and "Account not found." each an if-and-only-if on the credentials, and the same two driver-error 500s. On success one account with the matched account's id gets the session, and when ids are unique only the matched account's session changes |
| AccountRoutes.Me | src/routers/account.rs:48-78 | 401 without a header; 500 on a driver error; "Session not found." exactly when no account holds the session. Otherwise it shows the first account holding the session, and panics exactly when that account's e-mail does not decrypt |
| AccountRoutes.UpdateEmailWith | src/routers/account.rs:127-148 | for a given ciphertext: 401 without a header or an unknown session, 500 on a lookup error, and 500 on a failed update of a known session. Success exactly when both driver calls succeed. Then the accounts are the old ones with one account, whose id is the session owner's, given that ciphertext as stored e-mail, and when ids are unique that account is the session owner |
| AccountRoutes.UpdateEmail | src/routers/account.rs:127-148 | 401 without a header or an unknown session; 500 with the driver's message on a failed lookup or a failed update. Success exactly when both driver calls succeed. Then the accounts are the old ones with one account, whose id is the session owner's, given the encryption of the new address as typed, and when ids are unique that account is the session owner |
| AccountRoutes.UpdateEmailFixed | src/routers/account.rs:133 | corrected `update_email`: the same outcomes. On success the accounts are the old ones with one account, whose id is the session owner's, given the encryption of the lower-cased address, as `register` stores it, and when ids are unique that account is the session owner |
| AccountFacts.RegisterKeepsUsernamesUnique | src/routers/account.rs:83-87 | registration keeps usernames unique ignoring case |
| AccountFacts.RegisterKeepsIdsUnique | src/routers/account.rs:103 | with a fresh UUID, registration keeps account ids unique |
| AccountFacts.RegisterKeepsLowerCaseEmailsUnique | src/routers/account.rs:89-105 | for an address already in lower case, registration keeps stored e-mails unique |
| AccountFacts.RegisterCanDuplicateEmail | src/routers/account.rs:89-105 | as written: registering a mixed-case address whose lower-case form is already stored succeeds and stores a second copy of that ciphertext |
| AccountFacts.RegisterFixedKeepsAccountsUnique | src/routers/account.rs:83-111 | corrected: registration keeps usernames (ignoring case), stored e-mails and ids all unique |
| AccountFacts.RegisterRejectsCaseVariant | src/routers/account.rs:83-87 | after a successful registration, any case variant of the name is refused with "Name already exists!" |
| AccountFacts.MixedCaseEmailCannotLogIn | src/routers/account.rs:153-158 | as written: with an injective cipher, an account registered with an address that lower-casing changes cannot log in with that address and its password |
| AccountFacts.RegisteredCanLogIn | src/routers/account.rs:153-171 | corrected: right after registering, logging in with the same e-mail and password succeeds, and with unique ids the new account gets the session |
| AccountFacts.LoginKeepsAccountsUnique | src/routers/account.rs:162-168 | login keeps usernames, e-mails and ids unique |
| AccountFacts.LoginThenMe | src/routers/account.rs:52-65 | after a login with a fresh token, `@me` with that token shows the account whose credentials matched |
| AccountFacts.LoginEndsPreviousSession | src/routers/account.rs:162-168 | after a login, no other token still identifies the account that logged in |
| AccountFacts.UpdateEmailThenLogin | src/routers/account.rs:133 | after an e-mail change, the new address as typed logs in with the account's password |
| AccountFacts.UpdateEmailFixedThenLoginFixed | src/routers/account.rs:133 | corrected: after the lower-casing e-mail change, the lower-casing login succeeds with the new address in any case variant and the account's password |
| AccountFacts.UpdateEmailCanDuplicate | src/routers/account.rs:131-135 | the e-mail change does not check for an existing account, so it can give two accounts the same stored e-mail |
| UserRoutes.Index | src/routers/user.rs:56-81 | 500 on a driver error; "Not found" exactly when no username matches ignoring case; otherwise a 200 showing the public fields of the first account whose name matches, as `find_one` returns it |
| UserRoutes.IndexFindsTheNamedAccount | src/routers/user.rs:60-75 | with usernames unique ignoring case, the profile shown is the matching account's |
| UserRoutes.RegisterThenIndex | src/routers/user.rs:60-75 | right after registration, the profile route finds the new account under any case variant of its name |
| UserRoutes.CursorItems | src/routers/user.rs:34-43 | a cursor error at position k yields the first k matches and then the error; without one, the cursor yields every match in order |
| UserRoutes.GetUserSkins | src/routers/user.rs:19-54 | 500 on a lookup error; "User not found" exactly when no name matches; a panic if `find` fails. A 500 if the cursor fails before the end, discarding partial results. Otherwise a 200 listing every skin the first matching user owns, in order, each owned by that user |
| UserRoutes.Drain | src/routers/user.rs:34-44 | the cursor loop: without an error, one summary per document in order; otherwise the error of the first failing item, with every earlier item a document |
| UserRoutes.OwnedSkinsBelongTo | src/routers/user.rs:31-37 | every skin the owner filter lists names that owner |
| UserRoutes.UploadLeavesListingsUnchanged | src/routers/skins.rs:134-143 | uploads store no owner, so an upload never changes anyone's `get_user_skins` listing |

## Left out

- CSRF handling, `update_user` and the other routes outside the three
  handler files are not part of this model.
- The cipher, base64, `tree_magic`, `imagesize` and UTF-8 decoding are
  foreign functions in `Env`. Their properties appear only as lemma
  hypotheses (for example `Injective(env.encrypt)`).
- Regex metacharacters in a username or title are not modelled. The
  anchored case-insensitive regex is modelled as equality after
  lower-casing, so a name containing `.` or `*` matches only itself.
- Concurrency is not modelled. Each handler runs against one store
  snapshot, so the check-then-insert races between concurrent requests are
  outside the model.
- UUID and timestamp generation are parameters (`id`/`uuid`, `now`). So is
  the `x-session` header, including the case where it is not valid ASCII
  (modelled as absent).
- The `SKINS_PATH` environment variable and the file path are not modelled.
  Files are keyed by skin id in `Store.files`.
- `SkinRoutes.Persist`: a failed write keeps the first `kept` bytes of the
  buffer as the skin's file. How many bytes a failed write leaves behind is
  a parameter, not derived from the file system.
- The non-image branch builds a "Skin must be a png or jpeg!" response and
  discards it (skins.rs:99-101). The upload goes on with zero metadata, and
  the model does the same.
- `login` answers with a `code` key where the other handlers use `status`.
  Both are modelled as the same envelope `status` field. A driver error on
  the login lookup returns a plain-text body (`Body.PlainText`).
- `agreed` and `remember_me` are accepted but never read by the source, and
  the model ignores them too.
- Uploaded skin documents carry no `owner` (skins.rs:134-143), so the model
  gives them `owner: None`. Uploads therefore never appear in a user's skin
  list (`UserRoutes.UploadLeavesListingsUnchanged`). An upload that records
  its uploader is not modelled.
- The router mounts only `user::index` under `user` (src/routers/mod.rs:12);
  `get_user_skins` is defined but not reachable over HTTP. The model covers
  the handler as defined and does not model routing.
- `GetUserSkins` models deserialisation failures of a skin document, like
  any other driver error on a cursor item, as `SkinsIo.cursorError`.

## Findings

| source | as written | input that shows it | evidently intended | confidence | as-written member | corrected member |
|---|---|---|---|---|---|---|
| src/routers/account.rs:89-105 | the duplicate check looks up `encrypt(email)` but the account stores `encrypt(email.to_lowercase())` | `Bob@x.io` registered when `bob@x.io` already exists: the lookup misses and a second account with the same stored e-mail is created | look up the same lower-cased ciphertext that is stored, so stored e-mails stay unique | not executed | AccountFacts.RegisterCanDuplicateEmail | AccountFacts.RegisterFixedKeepsAccountsUnique |
| src/routers/account.rs:153-158 | `register` stores the lower-cased address, but `login` encrypts the address as typed | register with `Bob@x.io`, then log in with `Bob@x.io` and the same password: "Account not found." | every e-mail lookup and write lower-cases the address: `login` looks up the lower-cased ciphertext, and `update_email` stores it, as `register` does; a user can then log in with the address they registered or changed to (`AccountFacts.UpdateEmailFixedThenLoginFixed`) | not executed | AccountFacts.MixedCaseEmailCannotLogIn | AccountFacts.RegisteredCanLogIn |
