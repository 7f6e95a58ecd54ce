# Clip-asset service: a Dafny model

This project models the core of the clip server (`server.js`) and the client's API URL helper
(`src/config/api.ts`). The server lets one operator upload short video clips. Each clip becomes a
row of the `videos` table with an unguessable `video_hash` for share links. Clips are always
created private. Anyone can fetch a public clip by its hash. A private clip can be fetched only
by a privileged caller (header `X-User-Type: jay`, or an `Origin` containing the site's domain).
A clip can be made public or private again, or deleted together with its file. An owner's
clips and the newest public clips can be listed. The privacy and delete handlers check no
privilege, so any caller can use them, and the model's `SetPrivacy` and `Delete` take no
privileged flag.

The model has five files:

- `Text.dfy` (module `Text`): the string operations the server relies on. These are the
  substring test behind `includes` and the unanchored regular expression, ASCII lower-casing,
  decimal rendering of numbers, and index search.
- `ClipModel.dfy` (module `Clips`): the pure parts as functions, with lemmas.
  - the row datatype;
  - the multer file filter and file name;
  - the share hash;
  - the privileged-caller test and the static-file `setHeaders` mapping;
  - the table queries: first match by hash, match by id, `UPDATE … SET is_private`,
    `DELETE … WHERE id`, the owner listing and the recent-public listing.
- `ClipStore.dfy` (module `ClipService`): class `ClipStore`, the in-memory store.
  - It holds the table as a sequence of rows in insertion order, which is ascending id order,
    and the stored files as a set of paths.
  - It also holds the next auto-increment id and whether the upload directory exists.
  - Each request handler is a method. State-changing methods state the entire new state in
    terms of the old one. Read-only handlers state their result.
  - Two client methods use only the method contracts:
    - `UploadFetchDeleteScenario` walks through upload, fetch by hash with and without
      privilege, delete, and fetch again.
    - `UntitledUploadScenario` shows that an upload without a title answers 500, adds no row,
      and leaves its file stored.
- `ApiConfig.dfy` (module `ApiConfig`): `API_CONFIG` and `buildApiUrl`.
- `Options.dfy`: the `Option` type used for absent form fields and missing rows.

Clocks (`Date.now()`, `NOW()`, `new Date()`) and random numbers (`Math.random()`) are method
parameters. So are the privileged-caller verdict, the success of the database insert and the
success of the file removal. `Math.random()` is given by the base-36 digits of its value, which
is what `toString(36)` prints.

A failed request carries a `Clips.Failure`. Its HTTP status (`Clips.Status`) is 400 for an
upload without a file, 403 for a private clip and an unprivileged caller, 404 for an unknown
hash or id, and 500 for a refused file and for a failing database or file-system call.

Some behaviour of the code is easy to get wrong. The model follows the code:

- A file refused by the upload filter is not answered with 400. The filter's error goes to
  Express's default error handler, which answers 500 (`FilterRejected`).
- The server never checks title or game itself. The check exists only in the client's upload
  form. An upload that omits title, game or duration still passes the filter and stores its
  file. The insert then fails, because the database driver refuses an `undefined` parameter,
  and the answer is 500. An empty title is stored as the empty string.
- When removing the file fails after the row was deleted, the server answers 500. It does not
  report success.
- The stored file is written before the row is inserted, and a failed insert leaves it in place.
- `video_hash` is never checked for uniqueness. A lookup takes the first matching row.
- The recent list has a fixed limit of 4.
- The hash is at most 26 characters long and can be shorter.
- There is no view-count handler in the server. `views` is changed by no operation.

## Model

| member | source | states |
|---|---|---|
| `Text.ContainsIff` | server.js:45-47 | the regular-expression test and `includes` succeed exactly when some offset of the text starts a copy of the pattern (both directions) |
| `Text.Decimal` | server.js:37 | a non-negative number renders as a non-empty string of decimal digits |
| `Text.DecimalRoundTrip` | server.js:37 | the rendered timestamp or random number reads back as the same number |
| `Clips.Extname` | server.js:38 | the extension is empty or starts with '.', has no further dot, and is a proper suffix of the file name |
| `Clips.MatchesAllowedTypeIff` | server.js:45 | the filter's regular expression matches `s` exactly when one of the five type names occurs anywhere in `s` |
| `Clips.FileFilterIff` | server.js:44-54 | a file is accepted exactly when both the lower-cased extension and the mimetype contain an allowed type name |
| `Clips.FileFilterUnanchored` | server.js:45-46 | the test is unanchored: `clip.mp4x` with `video/mp4` is accepted |
| `Clips.Mp4Accepted` | server.js:44-54 | an ordinary `clip.mp4` with mimetype `video/mp4` is accepted |
| `Clips.UpperCaseMimetypeRejected` | server.js:47 | only the extension is lower-cased: a mimetype without lower-case letters is always refused |
| `Clips.NoAllowedTypeStart` | server.js:45 | a text without 'm', 'a' or 'w' before its last two characters never matches the allowed types |
| `Clips.QuickTimeMovRejected` | server.js:44-54 | a `.mov` file sent with the QuickTime mimetype `video/quicktime` is refused |
| `Clips.StoredPath` | server.js:152-153 | the stored `file_path` starts with `/uploads/videos/` and ends with the original extension |
| `Clips.FileNameRoundTrip` | server.js:36-39 | the file name parses back into exactly the timestamp, the random number and the extension, so nothing else (no title) is in it |
| `Clips.HashFragment` | server.js:155 | each fragment is the first min(13, n) base-36 digits of the random value, as digit characters |
| `Clips.VideoHash` | server.js:155 | the hash has at most 26 characters, all in `[0-9a-z]` |
| `Clips.NewClip` | server.js:151-162 | the insert yields a row exactly when title, game and duration are all present in the form; otherwise it fails with a server error |
| `Clips.NewClipDefaults` | server.js:159-162 | the inserted row is private whatever the request. Subtitle defaults to "" and owner to 1. Title, game and duration are stored as sent, unchecked |
| `Clips.UploadResponseDescribesRow` | server.js:174-188 | the upload response reports the stored row's id, title, game, duration, path and hash, and `is_private: true`. A missing subtitle is reported missing although "" was stored |
| `Clips.IsPrivilegedIff` | server.js:203 | the caller is privileged exactly when `X-User-Type` is `jay` or the Origin contains `vids.extracted.lol` |
| `Clips.StaticHeaders` | server.js:136-141 | `setHeaders` overrides `Accept-Ranges: bytes` and `Content-Type: video/mp4` exactly for paths ending in `.mp4`, `.mov`, `.avi` or `.webm`; otherwise it sets nothing |
| `Clips.MkvHasNoVideoHeaders` | server.js:136-141 | `setHeaders` adds no override for a `.mkv` path, although the upload filter accepts Matroska files |
| `Clips.UpperCaseMp4NoVideoHeaders` | server.js:36-141 | `CLIP.MP4` passes the filter, which lower-cases the extension. The stored name keeps `.MP4`, and `setHeaders` adds no override for that path |
| `Clips.FindByHash` | server.js:207-221 | the lookup gives the first row with the hash, or reports that no row has it |
| `Clips.FindById` | server.js:288-301 | the lookup gives the first row with the id, or reports that no row has it |
| `Clips.WithPrivacy` | server.js:252-255 | the update changes `is_private` of exactly the rows with the id; every other field and row is unchanged |
| `Clips.PrivacyRoundTrip` | server.js:252-255 | making a clip private and then public equals making it public. The row ends public with all other fields equal |
| `Clips.WithoutIdMembers` | server.js:303-306 | after the delete, the table holds exactly the rows with another id |
| `Clips.WithoutIdAt` | server.js:288-306 | with ascending ids, the delete cuts out exactly the row the select found, keeping the others in order |
| `Clips.WithoutIdGone` | server.js:303-306 | no row with the deleted id remains |
| `Clips.DeletedHashNotFound` | server.js:303-306 | after the delete, a lookup by the deleted row's hash finds nothing when no other row shared it |
| `Clips.AppendKeepsFirstMatch` | server.js:207-221 | a newly inserted row whose hash already exists is shadowed by the earlier row |
| `Clips.Filter` | server.js:340-346 | the `WHERE` filter keeps exactly the accepted rows, each as often as in the table |
| `Clips.SortNewestFirst` | server.js:348 | `ORDER BY upload_date DESC` yields a newest-first permutation of its input |
| `Clips.OwnerListing` | server.js:340-350 | the owner listing is newest first and holds exactly the owner's rows. For an unprivileged caller, only the public ones |
| `Clips.PublicNewestFirst` | server.js:374 | the public rows, newest first, all of them and only them |
| `Clips.NewestPrefix` | server.js:374 | `LIMIT` on a newest-first list keeps the order, and no row left out is newer than a row kept |
| `Clips.RecentPublic` | server.js:373-375 | the recent list has at most 4 rows, all public, newest first |
| `Clips.RecentPublicNewest` | server.js:374 | the recent list holds min(4, number of public rows) of the public rows, and no public row left out is newer than a listed one |
| `ClipService.ClipStore.Upload` | server.js:145-197 | no file: 400 and no change. A refused file: filter error (answered 500) and no change. Otherwise the directory exists and the file is stored. If title, game and duration are present and the insert succeeds, exactly one private row with a fresh id is appended, the id counter advances by one, and the response is built. Otherwise: 500, the file stays, and the table and counter are unchanged |
| `ClipService.ClipStore.GetByHash` | server.js:200-243 | no row with the hash: NotFound. First match private and caller unprivileged: Forbidden. Otherwise the whole first matching row; the store is not changed |
| `ClipService.ClipStore.SetPrivacy` | server.js:246-280 | the table becomes the privacy update of the old one. NotFound exactly when no row has the id, and then nothing changes |
| `ClipService.ClipStore.Delete` | server.js:283-332 | unknown id: NotFound and no change. Otherwise the row is cut out, then the file is removed if it exists. A missing file is not an error; a failing removal answers 500 after the row is gone |
| `ClipService.ClipStore.ListByUser` | server.js:335-366 | answers the owner listing of the current table |
| `ClipService.ClipStore.Recent` | server.js:369-391 | answers the recent-public listing of the current table |
| `ApiConfig.BuildApiUrl` | src/config/api.ts:16-19 | the URL starts with the base URL followed by the endpoint. Without params (absent or empty) nothing follows; with params, `/` and the params follow |
| `ApiConfig.OneSeparator` | src/config/api.ts:3-13 | every endpoint starts with '/' and the base URL does not end with one, so exactly one separator joins them |
| `ApiConfig.BuildApiUrlRoundTrip` | src/config/api.ts:16-18 | stripping the base URL from a URL built without params gives back the endpoint |

## Left out

- Helmet, CORS, the allowed-origin list, rate limiting, the `/uploads` OPTIONS handling and the
  health check (server.js:57-121, 124-134, 394-396): these are network-edge policy, not clip logic.
  The privileged verdict is a boolean parameter of the handlers; `Clips.IsPrivileged` gives its
  definition.
- Database connections and the 500 answers for database errors in fetch, privacy update, delete
  and the listings: these are foreign I/O. Only the upload's insert failure is modelled
  (`insertOk`), because a failed insert leaves the stored file behind.
- The file write itself, multer's own limits and write errors, `path.join` with the server
  directory, and `fs.existsSync`/`unlinkSync`: stored files are a set of paths, and removal
  either succeeds or throws (`unlinkOk`).
- Byte-range streaming by `express.static`: this is library code. Only the headers set by
  `setHeaders` are modelled. The library's own default headers still apply and are not
  modelled. It sends `Accept-Ranges: bytes` for every file. It also sends a `Content-Type`
  looked up from the lower-cased extension, so `.MP4` still gets `video/mp4` and `.mkv` gets
  `video/x-matroska`.
- The `views` column: the table schema is not part of this model, and no handler changes the
  column.
- Ids in URLs arrive as text that the database converts to a number. The model takes the
  converted number. A request body whose `isPrivate` is not a boolean is not modelled.
- The failure of a well-formed insert (a lost connection, a constraint violation) is the
  parameter `insertOk`. The insert rejected for a missing title, game or duration is modelled
  directly.
- A multipart file sent under a field name other than `video`: multer's `upload.single('video')`
  raises an error, which Express answers with 500. The model's upload has either no file or the
  `video` file.
- Clips.FindByHash: compares hashes, ids and owners with exact equality. SQL `=` follows the
  column's collation, and the table schema is not part of this model. A case-insensitive or
  trailing-space-insensitive collation would also match `ABC…` to a stored `abc…`; the model
  does not capture that. Form and URL values (ids, `userId`) are taken as already converted to
  numbers by the database. The lookup's SELECT has no `ORDER BY`, so SQL promises no row order.
  The model takes its first row to be the earliest inserted, which is the lowest id; this is
  the order `Clips.AppendKeepsFirstMatch` relies on.
- The id counter: after a successful insert it advances by one, as an auto-increment column
  does in the common case. The database itself promises only a fresh, larger id.
- Clips.Extname: models `path.extname` for a bare file name; names containing '/' or ending in
  a separator are not modelled.
- Text.Lower: ASCII lower-casing only; JavaScript's full Unicode case mapping (for example the
  Kelvin sign becoming 'k') is not modelled.
- Clips.SortNewestFirst: rows with equal upload dates keep table order; the database leaves
  their order unspecified, so the model fixes one admissible order.
- Concurrent requests: each handler runs as one atomic step on the store.
- Logging, and the React pages and components (including view formatting, date formatting and
  the client-side duration computation), which are UI.
