# Avatar record store

A Dafny model of the avatar service of a small TypeScript media API. The service keeps one
avatar record per account in a document collection and offers four operations:

- `getAvatar`: read a record and return its JSON form.
- `createAvatar`: insert a record and reject an account that already has one.
- `updateAvatar`: replace a record's URLs and `updatedAt`, or signal absence with `null`.
- `deleteAvatar`: drop a record.

The URLs are placeholders built by string concatenation from the uploaded file's names. The
record's schema has three required string paths and two timestamps that default to the clock.
Its `toJSON` transform deletes the internal keys `id`, `__v` and `_id`.

Files:

- `wrappers.dfy`: `Option` (the source's `null`) and `Result` (a thrown error).
- `avatar_schema.dfy` (module `AvatarSchema`): the schema's part of the system.
  - The saved document `AvatarDoc` and the unsaved `Draft` built by `new Avatar()` at clock reading `now`.
  - The `required` validation that `save` runs.
  - The object handed to the transform, the transform itself, and `ToJSON`.
- `avatar_model.dfy` (module `AvatarModel`): the collection as a `seq<AvatarDoc>` in natural order.
  - `findOne({ accountId })` is `FindFirst`/`Lookup`: the first matching document.
  - `deleteOne({ accountId })` is `DeleteOne`: remove the first match.
  - Lemmas on keeping at most one record per account, and on what reads see after each change.
- `avatar_service.dfy` (module `Services`): the class `AvatarService`.
  - Fields `store` (the collection) and `nextOid` (the ObjectId source).
  - `GetAvatar` and `GenerateThumbnail` are functions.
  - `CreateAvatar`, `UpdateAvatar` and `DeleteAvatar` are methods that change `store`.

The schema declares no unique index on `accountId`. So "at most one record per account"
(`UniqueAccounts`) is not part of the class invariant `Valid()`. Instead, each state-changing
method proves that it preserves uniqueness when uniqueness held before. `Valid()` only says two
things: everything stored went through `save`'s validation, and every stored `_id` was already
handed out.

Modelling choices that follow the code:

- A `required` String path rejects both an unset value and the empty string. So `createAvatar`
  with an empty `accountId` fails validation. No record is written, but the ObjectId drawn by
  `new Avatar()` is used up.
- Create builds `imageUrl` from `file.filename`. Update and `generateThumbnail` use
  `file.originalname`. The model keeps this inconsistency (`CreateAndUpdateImageUrlsAgree`).
- The service stores placeholder `example.com` URLs; no image is processed or uploaded.
- `updateAvatar` sets `updatedAt` to the clock reading, with no guarantee that it is later than
  the previous value.

## Model

| member | source | states |
|---|---|---|
| `AvatarSchema.Validate` | src/schemas/avatar.schema.ts:4-10 | save succeeds exactly when `accountId`, `imageUrl` and `thumbnailUrl` are all set and non-empty; the saved document keeps the draft's values and gets revision 0; otherwise the error names exactly the failing paths |
| `AvatarSchema.UnsetDraftRejected` | src/schemas/avatar.schema.ts:5-9 | a document constructed at `now` without its string paths cannot be saved, and all three paths are reported in schema order |
| `AvatarSchema.SaveNewDraft` | src/schemas/avatar.schema.ts:4-9 | a new document with all three paths set saves exactly when none is empty, and then `createdAt == updatedAt == now` (the defaults) |
| `AvatarSchema.Transform` | src/schemas/avatar.schema.ts:14-18 | the result has exactly the input's keys minus `id`, `__v`, `_id`, and every remaining key keeps its value |
| `AvatarSchema.TransformIdempotent` | src/schemas/avatar.schema.ts:14-18 | applying the transform twice equals applying it once |
| `AvatarSchema.ToJSON` | src/schemas/avatar.schema.ts:12-19 | the JSON form has exactly the keys `accountId`, `imageUrl`, `thumbnailUrl`, `createdAt`, `updatedAt`, none of the internal keys, each with the stored value |
| `AvatarSchema.ToJsonStable` | src/schemas/avatar.schema.ts:12-19 | transforming an already projected record changes nothing |
| `AvatarSchema.ToJsonDeterminesPublicFields` | src/schemas/avatar.schema.ts:4-19 | two documents have equal JSON forms exactly when they agree on everything but `_id` and `__v` |
| `AvatarModel.FindFirst` | src/services/avatar.service.ts:12 | `findOne` finds nothing exactly when no document has the account; otherwise it returns the first position whose document has it |
| `AvatarModel.DeleteOne` | src/services/avatar.service.ts:55 | `deleteOne` leaves the collection unchanged when nothing matches; otherwise it removes only the first match and keeps the order of the rest |
| `AvatarModel.FindFirstUnique` | src/services/avatar.service.ts:25-26 | with at most one record per account, `findOne` on a stored record's account returns that record's position |
| `AvatarModel.AppendKeepsUnique` | src/services/avatar.service.ts:25-31 | inserting a record for an account with no record keeps at most one record per account |
| `AvatarModel.ReplaceKeepsUnique` | src/services/avatar.service.ts:41-46 | overwriting a record with one of the same account keeps at most one record per account |
| `AvatarModel.DeleteKeepsUnique` | src/services/avatar.service.ts:54-56 | deleting keeps at most one record per account |
| `AvatarModel.DeleteRemovesAccount` | src/services/avatar.service.ts:54-56 | with at most one record per account, after a delete no record of that account remains |
| `AvatarModel.DeleteIdempotent` | src/services/avatar.service.ts:54-56 | with at most one record per account, deleting twice equals deleting once |
| `AvatarModel.DeleteTwiceWithDuplicates` | src/services/avatar.service.ts:55 | without uniqueness, `deleteOne` is not idempotent: on two records of one account, a second delete removes the second record |
| `AvatarModel.LookupAfterAppend` | src/services/avatar.service.ts:27-31 | after an insert, `findOne` changes only for the inserted account, and only if it had no record before |
| `AvatarModel.LookupAfterReplace` | src/services/avatar.service.ts:43-46 | after overwriting the found record, `findOne` returns the new record for its account and is unchanged for every other account |
| `AvatarModel.LookupAfterDelete` | src/services/avatar.service.ts:54-56 | deleting one account leaves `findOne` unchanged for every other account |
| `Services.ImageUrl` | src/services/avatar.service.ts:29 | the image URL is non-empty and is `https://example.com/image-` followed by the file name, which can be read back from it |
| `Services.ImageUrlInjective` | src/services/avatar.service.ts:29 | distinct file names give distinct image URLs |
| `Services.AvatarService.GenerateThumbnail` | src/services/avatar.service.ts:63-65 | the thumbnail URL is non-empty and is `https://example.com/thumbnail-` followed by `originalname`, which can be read back from it |
| `Services.ThumbnailDeterminedByOriginalName` | src/services/avatar.service.ts:63-65 | two files have equal thumbnail URLs exactly when their `originalname`s are equal; nothing else of the file matters |
| `Services.ImageUrlIsNotThumbnail` | src/services/avatar.service.ts:29-30 | an image URL never equals a thumbnail URL, so a record's two URLs always differ |
| `Services.CreateAndUpdateImageUrlsAgree` | src/services/avatar.service.ts:29-43 | create's image URL (from `filename`) and update's (from `originalname`) agree exactly when the two names are equal |
| `Services.ServiceError.Message` | src/services/avatar.service.ts:26 | the duplicate-account error, and only that one, carries the message "Avatar already exists" |
| `Services.AvatarService.GetAvatar` | src/services/avatar.service.ts:11-16 | null exactly when no record has the account; otherwise the JSON form of the first record in natural order that has the account, and with unique accounts the JSON form of the record of that account |
| `Services.AvatarService.CreateAvatar` | src/services/avatar.service.ts:24-32 | an existing account fails with an error whose message is "Avatar already exists" and changes nothing; an empty account id fails validation and stores nothing; otherwise exactly one record is appended, with an `_id` no stored record has, that account, `imageUrl` from `filename`, the thumbnail URL, and both timestamps `now`; its JSON form is returned; uniqueness is preserved |
| `Services.AvatarService.UpdateAvatar` | src/services/avatar.service.ts:40-47 | an absent account returns null and changes nothing; otherwise only the found record changes: `imageUrl` from `originalname`, the thumbnail URL and `updatedAt = now`, with its account and `createdAt` kept; its JSON form is returned; uniqueness is preserved |
| `Services.AvatarService.DeleteAvatar` | src/services/avatar.service.ts:54-56 | the collection becomes `deleteOne` of the account; with unique accounts the account is gone afterwards and uniqueness is preserved |

## Left out

- The HTTP controller (`src/controllers/avatar.controller.ts`) is not part of this model. It
  holds the routing decorators, the mapping of null to a 404, a PUT handler that never calls the
  service, and a DELETE that does not await the service.
- The S3 provider, the database connection provider, the model binding and the server startup
  (`src/providers/*`, `src/models/avatar.model.ts`, `src/index.ts`) are not part of this model.
  They are I/O bootstrap and foreign network calls.
- Image compositing, masks, object-store key naming and uploads do not exist in the service
  code, which writes placeholder URLs, so they are not modelled.
- Mongoose internals are replaced by operations on the in-model sequence. This covers
  `findOne`, `save`, `deleteOne` and the `id` virtual, which is modelled as the 24-digit
  lower-case hexadecimal form of `_id`.
- Failures of the database itself (a lost connection, a rejected write) are not modelled; every
  read and write succeeds.
- Operations are sequential. Async interleaving, and the race between two creates for one
  account, are not modelled.
- Dates are integers, and each operation reads the clock once (`now`). In the source, the two
  `Date.now` defaults are separate clock reads, so `createdAt` and `updatedAt` of a new record
  could in principle differ by a tick. The model gives both the same `now`.
- ObjectId generation (timestamp, random part and counter) is modelled as a counter, `nextOid`,
  which is enough to make each new `_id` unused.
- The uploaded file keeps only `filename` and `originalname`. Under in-memory upload storage
  `filename` may be undefined, and the template string would then contain `undefined`. The
  model takes `filename` as a string.
- JSON key order is not modelled: a JSON object is a map.
- The validation run by update's `save` is not modelled as a separate step. Under `Valid()` it cannot fail: the account is unchanged and non-empty, and both URLs are
  non-empty.
