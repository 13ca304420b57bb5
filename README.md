# ESignMicroservice: credential gate and record schemas

This project models the core decision logic of the e-signature
microservice in Dafny:

- **The client-credential gate**, the `authenticate` Express middleware. It
  reads `Authorization: Basic base64(clientId:clientSecret)`, decodes it and
  looks the pair up among the stored applications. It then answers 401 or
  500, or calls `next()`. The Base64 codec (section 4 of RFC 4648), UTF-8
  encoding and Node's `'ascii'` decoding are written out in full. The
  round trip with the client's encoder is proved for them.
- **The three Mongoose schemas**: `Document` (with its embedded `createdBy`
  and `signer` records), `Application` and `Log`. Each becomes a validator
  `Validate(raw, loadedAt)` from a raw record to a stored one or to a list
  of path errors. Validation applies `required`, `enum`, defaults and the
  `uppercase` setter. `Document` and `Application` also get an update
  relation, `Update(stored, patch, loadedAt)`, under which `createdAt`
  never changes. Each `default: new Date()` is one instant, fixed when its
  module loads, not when a record is created. The model takes a schema's
  defaults to be the single instant `loadedAt` (see Left out).

Modules: `Wrappers` (Option, Result), `Text` (JavaScript `split`, ASCII
upper-casing), `Base64` (codec, UTF-8, ASCII), `Schema` (errors, `required`,
`enum`, ObjectId casting), `DocumentModel`, `ApplicationModel`, `LogModel`,
`Authentication`.

What the code does not do, and the model therefore does not either:

- The code never restricts `statuses` transitions. It does not tie
  `signedPdfFile` to `statuses` or the signer count to `signingMode`, and
  it does not make `clientId` unique.
- The gate writes no audit log entry.
- A header with no token is not answered with a format error (see Findings).

The document lifecycle state machine, signer ordering and exactly-once
completion have no implementation in these files, so they are not
modelled.

The lookup is modelled with a `Database` value. It holds the stored
applications in natural order, whether the database answers, and
Mongoose's `strictQuery` setting. That setting is true by default in
Mongoose 6 and false in Mongoose 5 and from Mongoose 7 on. The Mongoose version is not
pinned in the files modelled, so both settings are covered.

## Model

| member | source | states |
|---|---|---|
| `Authentication.Authenticate` | middleware/authenticate.js:3-29 | exactly one outcome per request: 401 "Missing Authorization header" iff the header is absent or empty; rejection with no response iff a non-empty header has no space; 401 format error iff parsing fails; 500 iff the lookup throws; `next()` iff some stored application matches the filter as Mongoose sends it; otherwise 401 "Invalid credentials" |
| `Authentication.ParseHeader` | middleware/authenticate.js:4-17 | no header iff absent or empty; no token iff no space; parsed credentials are a non-empty id and secret, neither holding ':' |
| `Authentication.Token` | middleware/authenticate.js:11 | a token exists iff the header holds a space, and it holds no space |
| `Authentication.TokenIsSecondWord` | middleware/authenticate.js:11 | the token is exactly the second space-separated word; a third word and anything after it are ignored |
| `Authentication.CredentialText` | middleware/authenticate.js:12 | the decoded credential text has one character per decoded byte, all of them 7-bit ASCII |
| `Authentication.QueryFilter` | middleware/authenticate.js:20 | the filter holds `client_id` = id and `clientSecret` = secret; `client_id` is not a schema path, so the secret condition is the only one on a declared path |
| `Authentication.BasicHeader` | infras/api/esign-client.js:9 | the client's header is `Basic ` followed by space-free Base64 text of four characters per started group of three UTF-8 bytes |
| `Authentication.ParseCredentials` | middleware/authenticate.js:13-17 | the result is a format error or a non-empty, colon-free id and secret; text without ':' is a format error |
| `Authentication.FindOne` | middleware/authenticate.js:20 | fails iff the database does not answer; a found application is stored and matches the cast filter; "not found" iff none matches |
| `Authentication.CastFilter` | middleware/authenticate.js:20 | under `strictQuery` exactly the conditions on schema paths are kept, otherwise the filter is sent unchanged |
| `Authentication.First` | middleware/authenticate.js:20 | the application returned is stored, matches, and no application stored before it matches; none is returned only when none matches |
| `Authentication.BasicRoundTrip` | middleware/authenticate.js:10-13 | the header built by the client's encoder, for a non-empty ASCII id and secret without ':', parses back to exactly that id and secret |
| `Authentication.TokenOfBasicHeader` | infras/api/esign-client.js:9 | the token of the client's `Basic` header is the Base64 text |
| `Authentication.CredentialTextOfBasic` | middleware/authenticate.js:12 | decoding the client's token gives back `id:secret` for ASCII text |
| `Authentication.SchemeIgnored` | middleware/authenticate.js:11 | any first word, `Bearer` included, parses exactly like `Basic` |
| `Authentication.DoubleSpaceIsBadFormat` | middleware/authenticate.js:11-17 | two spaces after the scheme give an empty token and a format error |
| `Authentication.CredentialFields` | middleware/authenticate.js:13-17 | the id is the text before the first ':' and the secret the text up to the second ':'; anything after a second ':' is dropped; an empty id or secret is a format error |
| `Authentication.FormatErrorSkipsLookup` | middleware/authenticate.js:15-17 | a format error is answered without a lookup, whatever the database holds |
| `Authentication.SpacedHeaderSettled` | middleware/authenticate.js:19-28 | every header holding a space ends in a response or `next()`, never a rejection |
| `Authentication.ClientIdPathUnknown` | middleware/authenticate.js:20 | `client_id` is not a schema path and holds of no stored application |
| `Authentication.NonStrictNeverProceeds` | middleware/authenticate.js:20 | without `strictQuery` no header ever reaches `next()` |
| `Authentication.StrictMatchesSecretOnly` | middleware/authenticate.js:20-24 | with `strictQuery` the request proceeds iff some application holds the presented secret, whatever the id |
| `Authentication.WrongIdAdmitted` | middleware/authenticate.js:20-24 | with `strictQuery` another application's secret under a wrong id is let through |
| `Authentication.NoSpaceRejected` | middleware/authenticate.js:11-12 | `Basic` alone, or a bare token, gets neither a response nor `next()` |
| `Authentication.ColonInSecretTruncated` | middleware/authenticate.js:13 | a secret `a:b` sent by the client is read as `a` |
| `Authentication.ParseCredentialsIntended` | middleware/authenticate.js:13-17 | corrected split: the id is non-empty and colon-free, and the id, ':' and the secret make up the whole text |
| `Authentication.ParseHeaderIntended` | middleware/authenticate.js:4-17 | corrected parsing: never "no token"; a header without a space is a format error |
| `Authentication.AuthenticateIntended` | middleware/authenticate.js:3-29 | corrected gate: never a rejection; 401 "Missing Authorization header" iff the header is absent or empty; 401 format error iff the corrected parsing fails, in particular for a non-empty header without a space; 500 iff the parse succeeds and the database does not answer; `next()` iff the parsed id and secret belong to one stored application and the database answers; 401 "Invalid credentials" iff the database answers and no stored application has both |
| `Authentication.IntendedRoundTrip` | middleware/authenticate.js:10-13 | corrected parsing reads back any non-empty ASCII secret whole, colons included |
| `Authentication.IntendedAdmitsRegistered` | middleware/authenticate.js:20-24 | corrected gate: the client's header proceeds iff that id and secret are registered, under either `strictQuery` setting |
| `Base64.Decode` | middleware/authenticate.js:12 | three bytes per four characters read (rounded down), so never more than three bytes per four input characters |
| `Base64.Utf8` | infras/api/esign-client.js:9 | one to four bytes per character, exactly one per character for ASCII text |
| `Base64.DecodeEncode` | middleware/authenticate.js:12 | decoding what the encoder produced gives back the bytes |
| `Base64.Encode` | infras/api/esign-client.js:9 | the output has four characters per started group of three bytes, each from the standard alphabet or '=' |
| `Base64.Sextets` | middleware/authenticate.js:12 | the lenient decoder reads at most one six-bit value per input character |
| `Base64.EncodeSextets` | infras/api/esign-client.js:9 | n bytes give (4n + 2) / 3 six-bit groups |
| `Base64.DecodeSextets` | middleware/authenticate.js:12 | n six-bit values give 3n / 4 bytes |
| `Base64.SextetsOfChars` | middleware/authenticate.js:12 | the decoder reads alphabet characters back as their values and stops at the padding |
| `Base64.DecodeEncodeSextets` | middleware/authenticate.js:12 | bytes are read back from their six-bit groups |
| `Base64.Utf8Char` | infras/api/esign-client.js:9 | one to four bytes per character, the character's own code iff it is ASCII |
| `Base64.AsciiText` | middleware/authenticate.js:12 | one character per byte, the byte with its high bit cleared |
| `Base64.AsciiOfUtf8` | middleware/authenticate.js:12 | an ASCII string survives UTF-8 encoding and then ASCII decoding |
| `Text.Split` | middleware/authenticate.js:11 | at least one piece, none holding the separator |
| `Text.SplitJoin` | middleware/authenticate.js:13 | joining the pieces with the separator gives the string back |
| `Text.SplitAfterFirst` | middleware/authenticate.js:13 | a separator-free prefix before the first separator is the first piece |
| `Text.SplitMany` | middleware/authenticate.js:11 | more than one piece iff the separator occurs |
| `Text.ToUpperIsUpper` | infras/db/models/Document.js:25-28 | upper-casing keeps the length, maps each character and leaves no lower-case letter |
| `Text.ToUpper` | infras/db/models/Document.js:25-28 | upper-casing keeps the length |
| `Text.ToUpperIdempotent` | infras/db/models/Document.js:25-28 | upper-casing twice is upper-casing once |
| `Schema.CastObjectId` | infras/db/models/Log.js:4 | text casts iff it is 24 hex digits, and gives a lower-case ObjectId |
| `DocumentModel.Validate` | infras/db/models/Document.js:20-71 | accepted iff every path meets the schema; a missing `documentName`, `description`, `createdBy` or `pdfFile` and an out-of-enum `statuses`, `signingMode` or `visualize` are each reported at their path; a stored result conforms; the stored document holds the given `documentName`, `description`, `pdfFile`, `signingMode`, placement paths, `reason` and `signedPdfFile`, the cast `createdBy`, the upper-cased `documentNum`, the given signers and `originXY` (empty when absent) and the given timestamps; `statuses` defaults to `pending`, `visualize` to `invisible`, each timestamp to `loadedAt`; exactly which errors a rejection carries is stated by `ValidateReportsFailingPaths` and `ValidateReportsFailingSigners` |
| `DocumentModel.ValidateReportsFailingPaths` | infras/db/models/Document.js:20-71 | a rejected document draws a `required`, cast or enum error at each checked path iff that path fails, so no error is reported for a path that meets the schema |
| `DocumentModel.ValidateReportsFailingSigners` | infras/db/models/Document.js:10-18 | a rejected document draws an error at `signer.i.status` iff signer i is out of its enum, and every error it draws is on a checked path or on a signer it holds |
| `DocumentModel.SignerErrors` | infras/db/models/Document.js:10-18 | no error iff every signer's status is absent, `pending` or `signed`; a signer is reported at its index iff its status is out of the enum, and every error is a `status` enum error at an index of the list |
| `DocumentModel.Overlay` | infras/db/models/Document.js:20-71 | every path the patch sets takes the patch's value, the stored `createdAt` is kept, an empty patch gives the stored record back, and over a conforming document the result is acceptable iff the patch meets the schema on the paths it sets |
| `DocumentModel.Update` | infras/db/models/Document.js:20-71 | a saved update keeps `createdAt`, conforms, succeeds iff the patch meets the schema on the paths it sets (non-empty required strings, a castable `createdBy.appId`, listed enum values, conforming signers), and every other path is the patch's value where the patch sets it (upper-cased for `documentNum`, cast for `createdBy.appId`) and the stored value otherwise |
| `DocumentModel.StatusAnyTransition` | infras/db/models/Document.js:46-50 | any listed status may replace any other: an update setting only `statuses` saves the stored document with that status and nothing else changed |
| `DocumentModel.ValidateStored` | infras/db/models/Document.js:20-71 | re-validating a stored document gives it back unchanged |
| `DocumentModel.UpdateNothing` | infras/db/models/Document.js:20-71 | an empty patch changes nothing |
| `DocumentModel.CreatedAtImmutable` | infras/db/models/Document.js:37-41 | a patch setting `createdAt` has the same effect as one that does not |
| `DocumentModel.UpdateIdempotent` | infras/db/models/Document.js:20-71 | applying a patch twice equals applying it once |
| `DocumentModel.DocumentNumUpper` | infras/db/models/Document.js:25-28 | `documentNum` is stored upper-cased and upper-casing it again changes nothing |
| `DocumentModel.DefaultTimestampsShared` | infras/db/models/Document.js:37-45 | documents created without timestamps share one `createdAt` and `updatedAt`, the instant `loadedAt` fixed at module load |
| `DocumentModel.SignerCountUnconstrained` | infras/db/models/Document.js:51-55 | any list of well-formed signers is accepted, whatever `signingMode` is |
| `DocumentModel.SignerFreeFields` | infras/db/models/Document.js:10-18 | changing a signer's `govtId`, `signedAt` or `odr` never changes acceptance |
| `DocumentModel.SignerStatusChecked` | infras/db/models/Document.js:13-16 | a signer status outside `pending`/`signed` is reported at that signer's index |
| `DocumentModel.PlacementOptional` | infras/db/models/Document.js:56-65 | the placement paths never affect acceptance, whatever `visualize` is |
| `DocumentModel.SignedPdfFileIndependent` | infras/db/models/Document.js:46-50 | `signedPdfFile` may be set or absent under every status |
| `ApplicationModel.Validate` | infras/db/models/Application.js:3-26 | accepted iff name, id and secret are non-empty; a rejected record draws a `required` error at each of these paths iff it is absent or empty, and no other error; the stored name, id and secret are the given ones; `origin` is the given list or empty; each timestamp is the given one or `loadedAt` |
| `ApplicationModel.Overlay` | infras/db/models/Application.js:3-26 | every path the patch sets takes the patch's value, the stored `createdAt` is kept, an empty patch gives the stored record back, and over a conforming application the result is acceptable iff every name, id or secret the patch sets is non-empty |
| `ApplicationModel.Update` | infras/db/models/Application.js:3-26 | a saved update succeeds iff every name, id or secret the patch sets is non-empty; it keeps `createdAt`, and `updatedAt`, `applicationName`, `clientId`, `clientSecret` and `origin` are each the patch's value where the patch sets it and the stored value otherwise |
| `ApplicationModel.ValidateStored` | infras/db/models/Application.js:3-26 | re-validating a stored application gives it back |
| `ApplicationModel.CreatedAtImmutable` | infras/db/models/Application.js:17-21 | a patch setting `createdAt` has the same effect as one that does not |
| `ApplicationModel.UpdateNothing` | infras/db/models/Application.js:3-26 | an empty patch changes nothing |
| `ApplicationModel.DefaultTimestampsShared` | infras/db/models/Application.js:17-25 | applications created without timestamps share one `createdAt` |
| `ApplicationModel.Insert` | infras/db/models/Application.js:8-11 | saving succeeds iff the record validates, whatever is stored already, and appends it |
| `ApplicationModel.ClientIdNotUnique` | infras/db/models/Application.js:8-11 | a second application with an existing `clientId` is saved |
| `LogModel.Validate` | infras/db/models/Log.js:3-17 | accepted iff the ObjectId paths cast and `eventType` is absent or one of the four event types; a rejected entry draws a cast error at `documentId` or `appId` iff it does not cast and an enum error at `eventType` iff it is not listed, and no other error; the stored `govtId`, `appUserId`, `eventType` and `eventMessage` are the given ones, `documentId` and `appId` the cast ObjectIds; `timestamp` is the given one or `loadedAt` |
| `LogModel.ValidateStored` | infras/db/models/Log.js:3-17 | re-validating a stored entry gives it back |
| `LogModel.NothingRequired` | infras/db/models/Log.js:3-17 | an entry with no path set is valid |
| `LogModel.DefaultTimestampShared` | infras/db/models/Log.js:13-16 | entries created without a timestamp share one, the instant `loadedAt` fixed at module load |

## Findings

| source | as written | input that shows it | evidently intended | confidence | as-written member | corrected member |
|---|---|---|---|---|---|---|
| middleware/authenticate.js:20 | filters on `client_id`, a path the Application schema does not declare; with `strictQuery` off the condition never holds | any header, under Mongoose 5, or 7 and later (where `strictQuery` is off by default), with every stored application saved through the schema | filter on `clientId`, so the request proceeds iff one application has both the id and the secret | not executed; high | `Authentication.NonStrictNeverProceeds` | `Authentication.IntendedAdmitsRegistered` |
| middleware/authenticate.js:20 | with `strictQuery` on, Mongoose drops the `client_id` condition, so only the secret is compared | `Basic base64("mallory:<alice's secret>")` with only application `alice` stored, under Mongoose 6 (or with `strictQuery` switched on) | the same `clientId` filter | not executed; high | `Authentication.WrongIdAdmitted` | `Authentication.IntendedAdmitsRegistered` |
| middleware/authenticate.js:11-12 | a header with no space gives an undefined token; `Buffer.from` throws before the `try`, so under Express 4 no response is sent | `Authorization: Basic`, under Express 4 | 401 "Invalid Authorization header format" | not executed; high | `Authentication.NoSpaceRejected` | `Authentication.AuthenticateIntended` |
| middleware/authenticate.js:13 | the secret stops at a second ':' | `Basic base64("id:pa:ss")` is read with secret `pa` | secret `pa:ss`, as section 2 of RFC 7617 allows colons in the password | not executed; medium | `Authentication.ColonInSecretTruncated` | `Authentication.IntendedRoundTrip` |

## Left out

- The document lifecycle (status transitions, signer ordering, completion detection, retry and failure classification) and audit-log ordering. None is implemented in the modelled code.
- The remote signing provider client (infras/api/esign-client.js): each method is one HTTP POST with log-and-rethrow. Only its `Basic` header encoder is modelled (`Authentication.BasicHeader`).
- Database and object-storage connection setup (infras/db/mongoose.js, infras/storage/minio.mjs). These read environment variables and hold no logic.
- Express effects: `res.status(...).json(...)` and `next()` become the `Outcome` value, and `console.error` is dropped. A rejected handler promise is the `Rejected` outcome; what Node then does with the unhandled rejection is not modelled.
- Stored applications are assumed to have been saved through the Application schema, so none holds a `client_id` path. A record inserted around the schema with a matching `client_id` field would match a non-strict query; `Authentication.NonStrictNeverProceeds` holds only for schema-saved applications.
- The `Rejected` outcome (no response, no `next()`) is the behaviour of Express 4, which ignores a rejected handler promise. Express 5 forwards the rejection to `next(err)`, and the default error handler then answers 500; that version is not modelled.
- Default timestamps: each `default: new Date()` (infras/db/models/Document.js:40 and :44, infras/db/models/Application.js:20 and :24, infras/db/models/Log.js:15) is its own evaluation when its module loads. Each schema's validator takes one parameter `loadedAt` for its defaults, so a schema's `createdAt` and `updatedAt` defaults are the same instant in the model; in the code they may differ by the time between the two evaluations. `DocumentModel.DefaultTimestampsShared` and `ApplicationModel.Validate` rely on this.
- Concurrency: requests are independent and the code holds no shared state.
- Text.ToUpper: upper-cases ASCII letters only. JavaScript's `toUpperCase` also maps other scripts and may change the length (`ß` becomes `SS`).
- Base64.Decode: follows Node's lenient decoder in outline only (it skips characters outside the alphabet and stops at the first '='). Node versions differ on malformed input. Every lemma about decoding uses canonical encoder output.
- Base64.Utf8: JavaScript strings are UTF-16, and lone surrogates are not modelled.
- Number paths (`odr`, `visualizePageNumber`, `originXY`, `width`, `height`) hold integers; JavaScript floating point is not modelled.
- Casting raw values: raw string paths are taken as strings and Date paths as instants. Mongoose's casting of other JavaScript values (numbers to strings, date strings, objects) is not modelled.
- ObjectId paths accept only 24 hexadecimal digits. Other forms the driver accepts (12-byte strings, ObjectId instances) are not modelled.
- `_id` and `__v` generation, and the `_id` of embedded signers.
- Removing a path on update (`$unset`), and updates run without validators (`updateOne` without `runValidators`). An update is modelled as setting paths and then saving, which validates.
- Query semantics beyond equality on the string paths and membership in `origin`.
