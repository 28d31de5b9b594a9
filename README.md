# Credit offers and credentials: a Dafny model

This project models the credit-card recommendation and account back end of
`ns-bend-dev`, an Express and Mongoose service written in TypeScript:

- **Offers.** The offer schema. The catalog query, ordered by issuer and then
  card name. The recommendation query: the offers whose score bounds contain
  the user's score, highest minimum first.
- **Credentials.**
  - Registration and login, with the lower-cased and trimmed email as the
    identity key.
  - The pre-save hook that hashes a modified password, and `comparePassword`.
  - Session-token issue and verification.
  - The `protect` middleware: it extracts the bearer token, verifies it,
    loads the user without the password and attaches it to the request.
- **Score simulation.** A random step of -25..25 is applied to the score.
  The result is clamped to 300..850 and recorded as one new history entry.
- **AppError.** Its `status` is `fail` exactly when the decimal status code
  starts with `4`.
- **Seeding.** The catalog is replaced wholesale and the inserted offers are
  counted in four score ranges.

Each flow exists twice in the source: once as a service class and once as
the Express controller the routes actually use. Both copies are modelled,
and lemmas relate them:

- `OfferController.RecommendationsAgree` and `OfferController.LowScoreDiffers`:
  the controller has no 300 floor.
- `AuthController.LoginAgreesWithService`: the controller's login view drops
  `lastName` and `phoneNumber`.
- `AuthController.ValidationStatusDiffers`: the controller reports a
  validation error as 500, the service as 400.
- `UserController.NewScoreCopiesCompared` and `UserController.ScoreUpdateCopiesAgree`:
  the controller clamps from the attached user's score with no `|| 300`
  fallback.

### How the model is built

- **Pure code becomes functions.** The offer queries, the
  login decision chains, the middleware's decision chain, the clamp and
  `AppError` are functions over values.
- **Code that updates state is imperative.**
  - The users collection is the class `UserModel.UserStore`. It holds a map from
    normalised email to record, plus the `_id` index, with an invariant
    `Valid` that keeps the two in agreement.
  - A Mongoose document is the class `UserModel.UserDocument`.
  - `Save` runs validation, then the pre-save hook, then an insert or a
    write-back by id.
  - Registration creates a document and saves it. The score update loads
    one, sets the score, appends to its history sequence in place, and saves
    it.
  - `protect` is a method that updates a `Request` object. The seed script is
    a method on an `OfferCatalog`.
- **The environment becomes parameters.** These stand-ins are parameters:
  - the random step (`delta`);
  - the clock (`now`);
  - the hash salt;
  - the id of a new document;
  - the configured token lifetime;
  - the signing secret (empty means unset).

  A store failure is a `fault: Option<Fault>` parameter, which the
  operation's first store call throws. A `Fault` is a driver `Error`, a
  Mongoose `ValidationError`, or a thrown value that is not an `Error`.
- **Cryptography is symbolic.**
  - A bcrypt digest is a `Password.Digest` term. The comparison works on the
    password's key (`PasswordHash.BcryptKey`), built as bcryptjs builds it:
    the UTF-8 encoding followed by one zero byte, read cyclically until 72
    bytes are taken. A candidate matches a digest exactly when its key
    equals that of the hashed plaintext.
  - Consequences proved: among NUL-free passwords of at most 72 bytes only
    the hashed one matches. Two passwords sharing their first 72 bytes match
    each other's digests. A NUL inside a short password can reproduce
    another password's cyclic key, so `"a\0a"` matches the digest of `"a"`
    (`PasswordHash.EmbeddedNulCollides`).
  - A JSON web token is modelled as the four dot-separated fields
    `id.iat.exp.tag`, with a keyed checksum standing in for the HMAC.
  - Proved: sign then verify returns the signed id until expiry and
    `Expired` from then on, and a tampered tag is rejected.

### Behaviours of the code worth knowing

- **Score bounds.** `findRecommendedOffers` rejects only scores below 300
  (src/services/offer.service.ts:27-30). A score above 850 gets its
  recommendations like any other (`OfferService.HighScoresAccepted`).
- **Query example.** Take a catalog of [600..no maximum], [700..750],
  [300..599] and [300..null maximum]. A score of 650 gets only the first
  offer. The second fails its minimum and the third its maximum. The fourth
  fails both arms of the `$or` at src/services/offer.service.ts:36-39
  (`OfferService.RecommendationExample`, `OfferService.NullMaximumNeverRecommended`).
- **Error detail.** The controllers' `catch` blocks put `error.message` into
  their 500 answers (src/controllers/offer.controller.ts:12-16,
  src/controllers/auth.controller.ts:64-68, modelled by `Http.ServerError`).
- **Expired tokens.** In `protect`, the test for `JsonWebTokenError`
  (src/middleware/auth.middleware.ts:57) comes before the test for
  `TokenExpiredError` (line 60), which is a subclass of it. So an expired
  token gets the generic 401 'token failed verification' answer with the
  detail "jwt expired", and the 'token expired' answer is never sent
  (`AuthMiddleware.SessionRoundTrip`).
- **Phone number.** `phoneNumber` is passed to the user constructor
  (src/services/auth.service.ts:81) but is not a path of the user schema,
  so strict mode drops it. The service's response therefore never carries
  one.

## Model

| member | source | states |
|---|---|---|
| `AppErrors.NewAppError` | src/utils/AppError.ts:15-23 | message and code kept as given; `status` is `fail` iff the decimal code starts with `4`, otherwise `error`; always operational |
| `AppErrors.StatusFailIffLeadingFour` | src/utils/AppError.ts:20 | `fail` iff the code is non-negative and lies in [4·10^k, 5·10^k) for some k |
| `AppErrors.StatusOfHttpCode` | src/utils/AppError.ts:20 | for three-digit codes, `fail` exactly for 400..499 |
| `AppErrors.StatusOfCoreCodes` | src/utils/AppError.ts:20 | 400, 401 and 404 give `fail`; 500 gives `error` |
| `OfferModel.MissingPaths` | src/models/CreditCardOffer.model.ts:21-23 | no path fails iff the name and issuer are non-blank after trimming and the minimum score is given |
| `OfferModel.CreateOffer` | src/models/CreditCardOffer.model.ts:20-32 | accepted iff nothing required is missing, otherwise the Mongoose validation message; trimmed name and issuer, annual fee defaulting to 0, optional fields kept as given, the maximum score in its three states (absent, `null`, a number) |
| `OfferModel.CreatedOfferIsTrimmed` | src/models/CreditCardOffer.model.ts:21-22 | a created offer's name and issuer have no surrounding white space and trimming them again changes nothing |
| `OfferModel.BlankNameRejected` | src/models/CreditCardOffer.model.ts:21 | a white-space-only card name is rejected, and `cardName` is the first failing path |
| `OfferOrdering.SortOffers` | src/services/offer.service.ts:12 | the result is sorted by the key and is a permutation of the input |
| `OfferOrdering.PrecedesTotal` | src/services/offer.service.ts:40 | under either key, one of two offers may precede the other |
| `OfferOrdering.PrecedesTransitive` | src/services/offer.service.ts:40 | both sort keys are transitive orders |
| `OfferService.Eligible` | src/services/offer.service.ts:34-39 | the query's filter: minimum at most the score, and the maximum absent or at least the score (`null` fails both arms) |
| `OfferService.FilterEligible` | src/services/offer.service.ts:34-39 | each offer occurs as often as in the catalog when its inclusive bounds contain the score (absent maximum: unbounded; `null` maximum: never), and not at all otherwise |
| `OfferService.FindAllOffers` | src/services/offer.service.ts:10-19 | a failed query is the 500 AppError; otherwise the whole catalog, as a permutation, sorted by issuer then card name |
| `OfferService.FindRecommendedOffers` | src/services/offer.service.ts:27-47 | score below 300 is the 400 AppError before any query; a failed query the 500 AppError; otherwise exactly the eligible offers, sorted by minimum score descending then name |
| `OfferService.RecommendedMembership` | src/services/offer.service.ts:34-42 | an offer is recommended iff it is in the catalog and eligible |
| `OfferService.HighScoresAccepted` | src/services/offer.service.ts:28-31 | a score above 850 is not rejected; unbounded offers it meets are recommended |
| `OfferService.NullMaximumNeverRecommended` | src/services/offer.service.ts:36-39 | an offer whose maximum is stored as `null` is in no recommendation, whatever the score |
| `OfferService.RecommendationExample` | src/services/offer.service.ts:34-40 | for [600..], [700..750], [300..599], [300..null] and score 650 the result is exactly the first offer |
| `Http.ServerError` | src/controllers/offer.controller.ts:12-18 | a 500 with the error's message for an `Error`, with the unknown-error text otherwise |
| `OfferController.GetAllOffers` | src/controllers/offer.controller.ts:8-19 | 200 with the whole catalog sorted by issuer then name, as a permutation; 500 on a failed query |
| `OfferController.GetRecommendedOffers` | src/controllers/offer.controller.ts:24-52 | 401 without an attached user; 500 on a failed query; otherwise 200 with exactly the offers eligible for the attached score, best first |
| `OfferController.AllOffersAgree` | src/controllers/offer.controller.ts:10 | the handler's catalog list is the service's |
| `OfferController.RecommendationsAgree` | src/controllers/offer.controller.ts:35-41 | for scores of at least 300 the handler and the service return the same list |
| `OfferController.LowScoreDiffers` | src/controllers/offer.controller.ts:30-43 | below 300 the service answers 400 while the handler answers 200 with every eligible offer |
| `PasswordHash.Utf8` | src/models/User.model.ts:71 | the UTF-8 encoding bcrypt hashes: one to four bytes per character, every byte in 0..255 |
| `PasswordHash.Utf8Injective` | src/models/User.model.ts:71 | different strings have different encodings |
| `PasswordHash.Utf8ZeroIffNul` | src/models/User.model.ts:71 | the encoding holds a zero byte iff the string holds NUL |
| `PasswordHash.BcryptKey` | src/models/User.model.ts:94 | the key is 72 bytes: the first 72 encoded bytes of a long password, the encoding followed by a zero byte for a shorter one |
| `PasswordHash.KeyCycle` | src/models/User.model.ts:94 | every key byte is the encoding-plus-zero read cyclically |
| `PasswordHash.Hash` | src/models/User.model.ts:70-71 | a digest of the plaintext under the salt (its properties: `HashShape`, `CompareHash`) |
| `PasswordHash.Compare` | src/models/User.model.ts:94 | a candidate matches a stored value iff it is a digest of a plaintext with the same key (its properties: `CompareHash`) |
| `PasswordHash.CompareHash` | src/models/User.model.ts:94 | a plaintext matches its own digest under any salt, and another plaintext matches it iff their 72-byte cyclic keys agree |
| `PasswordHash.ShortKeyInjective` | src/models/User.model.ts:94 | NUL-free passwords of at most 72 bytes with equal keys are equal |
| `PasswordHash.ShortPasswordsDistinguished` | src/models/User.model.ts:94 | between NUL-free passwords of at most 72 UTF-8 bytes, only the hashed one matches a digest |
| `PasswordHash.ShortDigestRefusesOthers` | src/models/User.model.ts:94 | a digest of a NUL-free password of at most 72 bytes refuses every other such password |
| `PasswordHash.EmbeddedNulCollides` | src/models/User.model.ts:94 | `"a\0a"` differs from `"a"` yet matches its digest under any salt |
| `PasswordHash.LongPasswordsCollide` | src/models/User.model.ts:94 | passwords sharing a prefix of at least 72 UTF-8 bytes match each other's digests |
| `PasswordHash.HashShape` | src/models/User.model.ts:70-71 | a digest is non-empty, differs from what it hides, and depends on the salt |
| `UserModel.NewCreditHistory` | src/models/User.model.ts:28-32 | an entry exists iff a score is given; the date defaults to the current time; score and note kept |
| `UserModel.WithoutPassword` | src/models/User.model.ts:52 | the projection keeps every field of the record but the password |
| `UserModel.NormalizeEmail` | src/models/User.model.ts:51 | the email path's `lowercase` then `trim` setters (its properties: `NormalizeEmailIdempotent`, `NormalizedEmailIsClean`) |
| `UserModel.NormalizedEmailIsClean` | src/models/User.model.ts:51 | a normalised email has no surrounding white space and no upper-case ASCII letter |
| `UserModel.NormalizeEmailIdempotent` | src/models/User.model.ts:51 | applying the email setters twice equals applying them once |
| `UserModel.MissingPaths` | src/models/User.model.ts:51-54 | nothing fails iff email and names are non-empty and the password is non-empty when loaded (and loaded when the document is new) |
| `UserModel.PreSaveHook` | src/models/User.model.ts:64-72 | the password is unchanged unless modified and non-empty; otherwise it becomes its digest |
| `UserModel.HookedPasswordCompares` | src/models/User.model.ts:70-71 | after the hook, the original plaintext compares equal to the stored value, and another candidate does iff its 72-byte key agrees; no other candidate does when both are NUL-free and at most 72 bytes |
| `UserModel.ComparePassword` | src/models/User.model.ts:81-95 | compares with the loaded hash, else with the re-fetched one, and fails with 'Could not retrieve password for comparison.' when neither is available |
| `UserModel.UserStore.FindByEmail` | src/services/auth.service.ts:70 | found iff the key is stored, and then that record |
| `UserModel.UserStore.FindById` | src/services/user.service.ts:40 | under the invariant, found iff the id is indexed, and the record carries that id and passed validation |
| `UserModel.UserStore.Insert` | src/models/User.model.ts:51 | a taken email or id is a duplicate-key error and changes nothing; otherwise both indexes gain the record; the invariant is kept |
| `UserModel.UserStore.Update` | src/services/user.service.ts:66 | a vanished id or an email taken by another user is an error and changes nothing; otherwise the record replaces the old one under its email; the invariant is kept |
| `UserModel.UserDocument.Create` | src/models/User.model.ts:50-58 | email lower-cased and trimmed, names trimmed, the plaintext marked modified, score 300, empty history, new |
| `UserModel.UserDocument.Load` | src/services/user.service.ts:40-43 | a loaded document holds the record's data, with the password only when selected; not new and not modified |
| `UserModel.UserDocument.RunPreSaveHook` | src/models/User.model.ts:64-72 | the document's password becomes what the hook rule gives |
| `UserModel.UserDocument.Save` | src/models/User.model.ts:50-78 | validation failures change nothing; otherwise the hook runs and the record is inserted (new) or written back by id keeping the stored password when it was not loaded: a vanished id is a not-found fault, a changed email already taken a duplicate-key fault, both changing nothing; an unchanged email replaces the record, a changed free one re-keys it; the store invariant is kept |
| `Jwt.Sign` | src/services/auth.service.ts:50-52 | a token for the id issued at `now` and expiring after the lifetime (its properties: `VerifySigned`) |
| `Jwt.Verify` | src/middleware/auth.middleware.ts:41 | an accepted token carries a valid tag under the secret, is unexpired, and names the id in its first field |
| `Jwt.VerifySigned` | src/services/auth.service.ts:47-53 | signing then verifying returns the id and issue time before expiry and `Expired` from then on |
| `Jwt.TamperedRejected` | src/middleware/auth.middleware.ts:41 | a token whose tag does not match its fields is an invalid signature |
| `Jwt.OtherKeyRejected` | src/middleware/auth.middleware.ts:41 | a token checked under a key giving a different tag is an invalid signature |
| `AuthService.GenerateToken` | src/services/auth.service.ts:47-53 | signs the id with the secret and the configured lifetime, one day by default (its properties: `TokenBindsId`) |
| `AuthService.TokenBindsId` | src/services/auth.service.ts:47-53 | the issued token verifies to the user's id for the configured lifetime, one day by default |
| `AuthService.LookupKey` | src/services/auth.service.ts:70 | the lower-cased query value with the setters applied is the normalised email |
| `AuthService.RegisteredUser` | src/services/auth.service.ts:76-86 | the stored record has the fresh id, the normalised email, a hash accepting exactly the candidates with the given password's 72-byte key (only that password, when it and the candidate are NUL-free and at most 72 bytes), score 300 and no history |
| `AuthService.RegistrationFailure` | src/services/auth.service.ts:102-113 | a validation error becomes 400 'Validation failed: …', anything else the 500 registration error |
| `AuthService.RegisterUser` | src/services/auth.service.ts:61-114 | missing fields 400 first; lookup failure classified; existing email 400; validation 400; otherwise exactly one record added under the normalised email and the token plus a password-free view returned; errors change nothing; scores stay in range |
| `AuthService.LoginUser` | src/services/auth.service.ts:123-165 | missing fields 400; lookup failure 500; a token and view for the stored user iff the password matches, else 401 'Invalid credentials.' |
| `AuthService.LoginAfterRegistration` | src/services/auth.service.ts:130-144 | a registered user logs in with the registered password under any equivalent spelling of the email; another password succeeds iff its 72-byte key is the same and otherwise gets 401, so among NUL-free passwords of at most 72 bytes every other one gets 401 |
| `AuthService.SameErrorForUnknownAndWrong` | src/services/auth.service.ts:132-141 | an unknown email and a wrong password give identical results |
| `AuthController.ControllerToken` | src/controllers/auth.controller.ts:16-20 | the handler's token is the service's token with the default one-day lifetime |
| `AuthController.Register` | src/controllers/auth.controller.ts:23-71 | 400 for missing fields or an existing email; 500 with the error message for every thrown error, validation included; otherwise 201 with token and view without password, exactly one record added |
| `AuthController.Login` | src/controllers/auth.controller.ts:74-113 | 400 for missing fields; 500 on failure; 200 with token and id/email/first-name view iff the password matches, else 401 'Invalid credentials.' |
| `AuthController.LoginAgreesWithService` | src/controllers/auth.controller.ts:95-104 | the handler and the service accept the same credentials with the same token; the handler's view lacks last name and phone |
| `AuthController.ValidationStatusDiffers` | src/controllers/auth.controller.ts:64-70 | a validation error is 400 in the service and 500 in the handler |
| `AuthMiddleware.BearerField` | src/middleware/auth.middleware.ts:29 | the extracted field contains no space |
| `AuthMiddleware.TokenOf` | src/middleware/auth.middleware.ts:23-33 | a token is found iff the header is present, starts with `Bearer` and has a non-empty second field, which is the token |
| `AuthMiddleware.BearerHeaderCarriesToken` | src/middleware/auth.middleware.ts:29 | `Bearer <token>` yields exactly the token |
| `AuthMiddleware.Authenticate` | src/middleware/auth.middleware.ts:19-70 | no token 401; no secret 500 after extraction; failed verification 401 with the library message; lookup error 500; unknown id 401; otherwise the stored user without password |
| `AuthMiddleware.Protect` | src/middleware/auth.middleware.ts:44-52 | on success the user is attached and next runs exactly once; on every other path a response is sent and next does not run |
| `AuthMiddleware.SessionRoundTrip` | src/middleware/auth.middleware.ts:41-52 | a stored user's issued token passes for one day and then gets 401 with "jwt expired" |
| `AuthMiddleware.NoHeaderNoLookup` | src/middleware/auth.middleware.ts:66-69 | without a bearer header the answer is 401 whatever the secret, clock or store |
| `Score.Clamp` | src/services/user.service.ts:48 | the result lies in 300..850, equals the input inside that range and the nearer bound outside it |
| `Score.ClampedStep` | src/services/user.service.ts:46-48 | from an in-range score a clamped step moves in the step's direction and by at most the step |
| `Score.CurrentScore` | src/services/user.service.ts:47 | a zero score counts as 300, any other as itself |
| `Score.ChangeNote` | src/services/user.service.ts:54 | the history note for a change (its properties: `ChangeNoteDecodes`) |
| `Score.ChangeNoteDecodes` | src/services/user.service.ts:54 | the note starts with the fixed prefix, has `+` iff the change is positive, and its tail reads back as the change |
| `UserService.FindUserById` | src/services/user.service.ts:15-30 | lookup errors 500; unknown id 404; otherwise the stored user without password |
| `UserService.ServiceNewScore` | src/services/user.service.ts:47-48 | the new score lies in 300..850 and steps from 300 when the stored score is zero |
| `UserService.UpdateEntry` | src/services/user.service.ts:51-56 | the appended entry: the new score, the change note, the current time (proved in place by `RescoredFacts`) |
| `UserService.Rescored` | src/services/user.service.ts:58-61 | score replaced, history one longer with the earlier entries unchanged and the new entry last, nothing else changed |
| `UserService.RescoredFacts` | src/services/user.service.ts:46-61 | the new score lies in range, moves by at most 25 from an in-range score, and the last entry records it and the change note |
| `UserService.ScoreUpdateFailure` | src/services/user.service.ts:77-86 | a validation error becomes 400 with its message, anything else 500 |
| `UserService.SimulateAndUpdateScore` | src/services/user.service.ts:38-87 | lookup errors classified; unknown id 404 and no write; otherwise the stored record rescored with one appended entry and returned without password; scores stay in range |
| `UserController.GetMe` | src/controllers/user.controller.ts:7-18 | 401 without an attached user, otherwise 200 with that user unchanged |
| `UserController.ControllerNewScore` | src/controllers/user.controller.ts:31-32 | the handler's new score lies in 300..850 |
| `UserController.NewScoreCopiesCompared` | src/controllers/user.controller.ts:32 | for a non-zero score both copies compute the same score; for zero and a positive step the handler gives 300 and the service 300 + step |
| `UserController.SimulateScoreUpdate` | src/controllers/user.controller.ts:23-67 | 401 without a user; 500 on lookup errors; 404 and no write for an unknown id; otherwise 200 and the stored record rescored from the attached score with one appended entry |
| `UserController.ScoreUpdateCopiesAgree` | src/controllers/user.controller.ts:40-48 | for a non-zero score the handler and the service store the same record |
| `SeedOffers.RangesPartition` | src/scripts/seedOffers.ts:33-36 | every offer is in exactly one of the four ranges |
| `SeedOffers.OffersByRange` | src/scripts/seedOffers.ts:32-37 | the four filter counts at 740, 670 and 580 (its properties: `RangesPartition`, `RangeCountsCoverAll`) |
| `SeedOffers.RangeCountsCoverAll` | src/scripts/seedOffers.ts:29-37 | the four counts add up to the number of inserted offers |
| `SeedOffers.CreateAll` | src/scripts/seedOffers.ts:28 | an accepted batch has one created offer per record in order; a rejected one reports the error of an invalid record |
| `SeedOffers.CreateAllAcceptsValid` | src/scripts/seedOffers.ts:28 | the batch is accepted iff every record is valid |
| `SeedOffers.OfferCatalog.Seed` | src/scripts/seedOffers.ts:21-37 | a failed delete changes nothing; an invalid batch leaves the catalog empty; otherwise the catalog is exactly the created seed offers and the counts cover them |

## Left out

- **`typeof` and NaN.** The `typeof userCreditScore !== 'number'` test, and
  any non-number or NaN score, cannot arise: scores are integers.
- **Non-string request fields.** A request field that is not a string (where
  `toLowerCase` would throw) is not modelled. Request fields are optional
  strings.
- **Unicode.** `toLowerCase` is modelled on ASCII letters only. Full Unicode
  case mapping is out of scope.
- **Query setters.** Mongoose applies the email path's `lowercase` and `trim`
  setters to query values as well. The model relies on this, so every
  lookup key is the normalised email.
- **bcrypt.** bcrypt's cost factor, salt generation and one-wayness are not
  modelled. A digest is a symbolic term, and the salt is a parameter. Two
  passwords collide exactly when their 72-byte cyclic keys agree; no other
  digest collision is modelled.
- **Lone surrogates.** Strings are sequences of Unicode scalar values. A
  JavaScript string holding an unpaired UTF-16 surrogate, which bcrypt's
  UTF-8 encoding turns into U+FFFD, is not modelled.
- **JWT.** HMAC-SHA256 and base64url encoding are not modelled. The token
  format and the checksum are stand-ins, and nothing is claimed about
  unforgeability.
- **`JWT_EXPIRES_IN`.** The string format (`'1d'`, `'7h'`) is not parsed. The
  configured lifetime is an optional number of seconds.
- **Startup.** `dotenv`, `process.exit` on a missing `JWT_SECRET` at start-up,
  and all console logging are left out.
- **Generated values.** ObjectId generation, `createdAt`/`updatedAt`
  timestamps and history subdocument ids are left out. The new id is a
  parameter.
- **Where faults strike.** A fault strikes the first store call of an
  operation. A driver failure during a later save or re-fetch is not
  modelled. In the model the record loaded by a score update always saves
  back. So `UserService.ScoreUpdateFailure`'s 400 case is reached only
  through a `ValidationRejected` fault on the first lookup, which
  `findById` does not raise in practice; the save where Mongoose could
  raise a validation error is proved never to fail.
- **Upper-case ObjectIds.** `UserModel.IsObjectId` accepts 24 lower-case
  hexadecimal digits only. Mongoose also casts 24 upper-case digits, so for
  such an id `AuthMiddleware.Authenticate` and `UserService.FindUserById`
  answer 500 where the source would look the user up. Only a token signed
  under the secret can carry such an id; issued tokens carry lower-case
  ids.
- **Tie order of queries.** `OfferController.AllOffersAgree` and
  `OfferController.RecommendationsAgree` state list equality because both
  copies sort with the same `OfferOrdering.SortOffers`, which fixes the
  order of offers with equal sort keys. Two MongoDB queries need not order
  such ties alike; what they share is that both lists are sorted and hold
  the same offers, which the handlers' and services' own contracts
  state.
- **Concurrency.** No second request changes the store between the
  duplicate-email lookup and the save.
- **Library message texts.** The texts of Mongoose's duplicate-key,
  document-not-found and cast errors are shortened to fixed strings. The
  required-path text follows Mongoose's format.
- **Response bodies.** Response bodies carry the modelled fields only.
  Serialisation of documents (`__v`, timestamps, `_id` as an ObjectId) is left
  out.
- **Express plumbing.** Routing, `asyncHandler`, the health route, the
  server bootstrap and the serverless wrapper are left out. Handlers are
  modelled as inputs giving a status, a body and the new store.
- **Seed I/O.** In the seed script, connecting, disconnecting, reading the
  JSON data file (the data is a parameter), the console report and
  `process.exit(1)` on failure are left out.
- **Expired-token branch.** The unreachable 'token expired' branch of
  `protect` is not a separate outcome, because no input reaches it.
- `AuthService.LoginUser`: its decision chain is stated only for a store
  that satisfies its invariant, where stored passwords are never empty.
- `AuthController.Login`: its decision chain is stated only for a store that
  satisfies its invariant, where stored passwords are never empty.
- `PasswordHash.ShortPasswordsDistinguished`: the refusal of other
  passwords is promised only for NUL-free passwords of at most 72 bytes,
  because a NUL inside a short password can reproduce another password's
  cyclic key (`PasswordHash.EmbeddedNulCollides`).
- `PasswordHash.ShortDigestRefusesOthers`: the same NUL-free restriction,
  for the same reason.
- `UserModel.HookedPasswordCompares`: the same NUL-free restriction on its
  refusal clause, for the same reason.
- `AuthService.RegisteredUser`: the same NUL-free restriction on its
  refusal clause, for the same reason.
- `AuthService.LoginAfterRegistration`: the same NUL-free restriction on
  its 401 clause, for the same reason; the key-equality iff holds for every
  password.
