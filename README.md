# Video downloader: store, request gates and URL templating

This project models the server core of a small video-downloader web app. It covers three parts:

- **The local database** (`LocalFileStorage`). It holds two tables, `users` and `downloads`. It allocates ids as the largest id plus one, or 1 in an empty table. It fills in the forced and defaulted fields of a new user, merges partial updates, deletes by filter, and returns a per-user history, newest first and capped at 20.
- **The request handlers.** Login checks the credentials and the ban flag. The `requireAuth` and `requireAdmin` gates guard the other routes. The analyze route runs its quota gate before the extraction tool, maps and filters the tool's formats, and writes the download record and the usage bump only on success. The history route scopes by role. The admin routes list, create, patch and delete users.
- **`buildUrl`** and the shapes of the request bodies that the server validates.

Modules:

- `Records`: the record types.
- `Tables`: the pure table operations and what is proved about them.
- `Storage`: the class `LocalFileStorage`, whose fields are the two tables and whose writers update them in place.
- `Extractor`: the mapping of the extraction tool's metadata.
- `SharedRoutes`: the body schemas and `buildUrl`.
- `Routes`: the gates as functions and the handlers as methods over the store and a session.

A session is the optional user id it holds. The extraction tool is represented by its outcome, failure or a metadata record, passed in as a parameter. The analyze handler returns whether it ran the tool. A clock reading is passed in as a natural number.

Where the code differs from what the app's own declarations suggest, the model follows the code:

- shared/routes.ts:60 declares a 400 validation response for analyze. An analyze body that fails validation is instead caught by the handler's outer `try` and answered with 500.
- shared/schema.ts:7 marks `username` unique, but nothing checks it on create. Login and lookup by name take the first match.
- A deleted user's id is given to the next user created when it was the largest id and the id just below it is still in use. A session that still holds that id then authenticates as the new user (`Routes.StaleSessionAdoptsNextUser`).
- A text value passed to `buildUrl` is a replacement template for `String.prototype.replace`, so `$&`, `$$`, `` $` `` and `$'` are expanded (`SharedRoutes.DollarTemplateValue`).

## Model

| member | source | states |
|---|---|---|
| `Tables.MaxOf` | server/storage.ts:67 | `Math.max` over a non-empty id list returns a member of the list that bounds every id |
| `Tables.NextId` | server/storage.ts:67 | the allocated id is 1 for an empty table, otherwise exactly the largest id plus one, so it exceeds every existing id |
| `Tables.AllocatedIdKeepsUnique` | server/storage.ts:101 | appending a row with the allocated id keeps the ids of a table positive and pairwise distinct |
| `Tables.IndexOfId` | server/storage.ts:80 | `findIndex` by id returns the first row with the id, or -1 exactly when no row has it |
| `Tables.IndexOfName` | server/storage.ts:60 | the position `find` by username uses: the first row with the name, or -1 exactly when none has it |
| `Tables.FindById` | server/storage.ts:55 | `find` by id returns nothing exactly when no row has the id, otherwise the first row with that id |
| `Tables.FindByUsername` | server/storage.ts:60 | `find` by username returns nothing exactly when no row has the name, otherwise the first row with that name: no earlier row has it, even when names repeat |
| `Tables.FindByIdUnique` | server/storage.ts:55 | in a table with unique ids, `find` by id returns the only row with that id |
| `Tables.NewUser` | server/storage.ts:65-72 | a new user gets a fresh id, the given credentials, usedToday 0 and isBanned false whatever the input says, and role "user" and dailyLimit 10 when those are absent or falsy (a requested limit of 0 becomes 10, and the stored limit is never 0) |
| `Tables.NewDownloadRow` | server/storage.ts:99-103 | a new download keeps the given fields, gets a fresh id and is stamped with the creation time |
| `Tables.ApplyPatch` | server/storage.ts:82 | the merge takes every field the update carries and keeps every other field; id, username, password and role never change |
| `Tables.ApplyPatchIdempotent` | server/storage.ts:82 | merging the same update twice gives the same row as merging it once |
| `Tables.WithoutId` | server/storage.ts:89 | delete keeps exactly the rows whose id differs from the given one |
| `Tables.WithoutIdAppend` | server/storage.ts:89 | delete filters row by row, so the remaining rows keep their order |
| `Tables.WithoutAbsentId` | server/storage.ts:89 | deleting an id that no row has leaves the table unchanged |
| `Tables.WithoutIdIdempotent` | server/storage.ts:89 | deleting the same id twice is the same as deleting it once |
| `Tables.WithoutIdKeepsUnique` | server/storage.ts:87-91 | delete keeps the user ids positive and distinct |
| `Tables.IdReusedAfterDelete` | server/storage.ts:63-91 | after deleting the user with the largest id, when the next id down is in use, the next created user receives the deleted user's id |
| `Tables.OwnedBy` | server/storage.ts:112-114 | the owner filter keeps every download of that user and only those, drawn from the table |
| `Tables.InsertNewest` | server/storage.ts:115 | inserting into a newest-first list keeps it newest first and adds exactly that element |
| `Tables.SortNewest` | server/storage.ts:115 | the sort returns a permutation of its input ordered by createdAt, non-increasing |
| `Tables.PrefixOfNewestFirst` | server/storage.ts:115 | a prefix of a newest-first list is newest first, and no element cut off is newer than an element kept |
| `Tables.TakeNewest` | server/storage.ts:115 | sort then slice returns min(20, n) of the candidates, newest first, and every candidate left out is no newer than those returned |
| `Tables.History` | server/storage.ts:109-116 | `getDownloads` returns at most 20 stored downloads, newest first; with a truthy userId all belong to that user; a userId of 0 or none means no filter; nothing omitted is newer than what is returned |
| `Storage.LocalFileStorage.constructor` | server/storage.ts:12-26 | with no database file the store starts with exactly the seeded admin and no downloads |
| `Storage.LocalFileStorage.Unreadable` | server/storage.ts:28-34 | an unparseable database file reads as two empty tables |
| `Storage.LocalFileStorage.GetUser` | server/storage.ts:53-56 | `getUser` answers nothing exactly when no stored user has the id, otherwise the first stored user with that id |
| `Storage.LocalFileStorage.GetUserByUsername` | server/storage.ts:58-61 | `getUserByUsername` answers nothing exactly when no stored user has the name, otherwise the first stored user with that name |
| `Storage.LocalFileStorage.GetUsers` | server/storage.ts:93-95 | `getUsers` returns the whole users table, row for row in stored order |
| `Storage.LocalFileStorage.GetDownloads` | server/storage.ts:109-116 | `getDownloads` is exactly `Tables.History` of the stored downloads: min(20, n) of the candidates, newest first, all owned by the given user when the id is truthy and unfiltered for 0 or none, with nothing left out newer than what is returned |
| `Storage.LocalFileStorage.CreateUser` | server/storage.ts:63-76 | appends the new user as the last row, leaves earlier rows and the downloads table untouched, and keeps ids unique |
| `Storage.LocalFileStorage.UpdateUser` | server/storage.ts:78-85 | given an update whose usage count, if it has one, is non-negative (as both callers send), keeps ids unique and usage counts non-negative; an unknown id fails with "User not found" and changes nothing; otherwise only the first row with that id is replaced by the merge, in place, and downloads are untouched |
| `Storage.LocalFileStorage.DeleteUser` | server/storage.ts:87-91 | the users table becomes the filtered table; downloads are untouched |
| `Storage.LocalFileStorage.CreateDownload` | server/storage.ts:97-107 | appends the new download as the last row with a fresh id; users are untouched |
| `Storage.SeedState` | server/storage.ts:13-24 | the seeded state has exactly one user, no downloads, and that user is id 1, "Admin", role "admin", dailyLimit 999999, usedToday 0, not banned |
| `Extractor.ToFormat` | server/routes.ts:85-90 | quality is format_note, else resolution, else "unknown"; label is format, else "unknown"; url and ext are copied |
| `Extractor.MapFormats` | server/routes.ts:85-90 | only entries whose url is present and starts with "http" are kept, each one mapped; nothing else appears |
| `Extractor.MapFormatsAppend` | server/routes.ts:85-90 | mapping works entry by entry, so the kept formats keep the tool's order |
| `Extractor.MapFormatsKeepsAll` | server/routes.ts:85-90 | when every entry has an http url, the result is the entries mapped one to one, in order |
| `Extractor.Summarize` | server/routes.ts:85-96 | title is the tool's title or "Unknown Title", thumbnail its thumbnail or "", formats the filtered mapping of its formats or none |
| `SharedRoutes.ParseLogin` | shared/routes.ts:25 | a login body is accepted exactly when it is an object whose username and password are strings |
| `SharedRoutes.LoginRoundTrip` | shared/routes.ts:25 | every username/password pair sent as a body is accepted and read back unchanged |
| `SharedRoutes.ParseAnalyze` | shared/routes.ts:48 | an analyze body is accepted exactly when its url is a string that passes the url check |
| `SharedRoutes.ParseNewUser` | shared/schema.ts:32-38 | a create body is accepted exactly when username and password are strings and role and dailyLimit are absent, null, or a string and a number; so a wrongly typed role or dailyLimit is refused; every value read is the body's, and role or dailyLimit is present exactly when the body gives a string or a number for it |
| `SharedRoutes.NewUserRoundTrip` | shared/schema.ts:32-38 | every create input sent as a body is accepted and read back unchanged |
| `SharedRoutes.NewUserIgnoresOtherKeys` | shared/schema.ts:32-38 | keys outside the four, such as id, isBanned or usedToday, have no effect on the validated input |
| `SharedRoutes.ParseAdminUpdate` | shared/routes.ts:89-93 | a PATCH body is accepted exactly when it is an object whose isBanned, banUntil and dailyLimit, where present, are a boolean, a string and a number (null or any other type is refused); each field is present exactly when its key is, with the body's value |
| `SharedRoutes.AdminUpdateRoundTrip` | shared/routes.ts:89-93 | every update sent as a body is accepted and read back unchanged |
| `SharedRoutes.AdminUpdateIgnoresOtherKeys` | shared/routes.ts:89-93 | keys outside those three, such as username, role or usedToday, have no effect on the validated update |
| `SharedRoutes.PatchOf` | server/routes.ts:135-136 | the update handed to the store carries the three PATCH fields and never usedToday or lastUsedAt |
| `SharedRoutes.NatToString` | shared/routes.ts:110 | `String(n)` for a natural number is a non-empty string of decimal digits without a leading zero ("0" for 0) |
| `SharedRoutes.NatToStringRoundTrip` | shared/routes.ts:110 | reading those digits back gives the number |
| `SharedRoutes.IntToString` | shared/routes.ts:110 | `String(n)` for an integer is never empty and never holds `$`; it is the digits of n without a leading zero, after a '-' when n is negative, and they read back as the magnitude of n |
| `SharedRoutes.ValueString` | shared/routes.ts:110 | `String(value)` returns a string value unchanged and a number as `IntToString` writes it, so non-empty and without `$` |
| `SharedRoutes.IndexFrom` | shared/routes.ts:109 | the search returns the first occurrence of the pattern at or after a position, or -1 exactly when there is none |
| `SharedRoutes.Substitution` | shared/routes.ts:110 | the replacement text `replace` inserts: a template without `$` is inserted literally, `$$` gives `$`, `$&` gives the matched text |
| `SharedRoutes.ReplaceFirst` | shared/routes.ts:110 | `replace` with a string pattern leaves a string without the pattern unchanged; otherwise it keeps the text before and after the first occurrence, and a replacement without `$` changes the length by exactly its length minus the pattern's |
| `SharedRoutes.ApplyParam` | shared/routes.ts:109-111 | one entry of the loop leaves a url without `:key` unchanged; a number value replaces the placeholder with exactly its digits' length |
| `SharedRoutes.ApplyParams` | shared/routes.ts:108-112 | no entries, or entries none of whose placeholders occur in the path, leave the path unchanged |
| `SharedRoutes.BuildUrl` | shared/routes.ts:105-115 | with no params the path is returned unchanged; otherwise the result is the entries applied in order, each to the previous result |
| `SharedRoutes.ApplyParamsAppend` | shared/routes.ts:108-112 | applying a list of entries is applying its first part and then the rest to that result |
| `SharedRoutes.ParamReplacesFirst` | shared/routes.ts:109-110 | a parameter whose `:key` occurs replaces its first occurrence only, with the value's string form when that has no `$` |
| `SharedRoutes.AdminUserPathPlaceholder` | shared/routes.ts:88 | the admin user path has its `:id` placeholder at position 17 and nowhere earlier |
| `SharedRoutes.AdminUserPathExample` | shared/routes.ts:105-115 | "/api/admin/users/:id" with {id: 5} becomes "/api/admin/users/5" |
| `SharedRoutes.DollarTemplateValue` | shared/routes.ts:110 | the text value "$&" puts the placeholder back, leaving "/api/admin/users/:id" unchanged |
| `Routes.RequireAuth` | server/routes.ts:55-63 | 401 exactly when the session has no truthy user id, no user has that id, or the user is banned; otherwise the stored user with that id passes |
| `Routes.RequireAdmin` | server/routes.ts:65-68 | 403 exactly for a role other than "admin" |
| `Routes.AdminGate` | server/routes.ts:122-144 | admin routes answer 401 to an unauthenticated request, never 403; 403 to an authenticated non-admin; only an authenticated admin passes |
| `Routes.QuotaReached` | server/routes.ts:75 | a dailyLimit of 0 (or less) refuses every request; a count below the limit refuses none |
| `Routes.HistoryScope` | server/routes.ts:118 | the history is unfiltered exactly for an admin; anyone else's is filtered by their own id |
| `Routes.CheckCredentials` | server/routes.ts:31-37 | login fails with 401 when no user has the name, the password differs, or the user is banned; it succeeds exactly otherwise, with the first user of that name |
| `Routes.AnalyzeGate` | server/routes.ts:70-77 | analyze answers 401 from the auth gate, then 500 for an invalid body, then 403 when usedToday >= dailyLimit; it passes exactly otherwise |
| `Routes.Login` | server/routes.ts:29-40 | the session's user id is set to the user's id only on success; every failure leaves the session as it was |
| `Routes.Logout` | server/routes.ts:42-46 | the session is cleared and the answer is success |
| `Routes.Me` | server/routes.ts:48-53 | null without a truthy session id or for an unknown id, otherwise the stored user, banned or not |
| `Routes.Analyze` | server/routes.ts:70-114 | the tool runs exactly when the gate passes; a refused request or a failed extraction changes nothing; a success appends exactly one download for the caller with the given url and sets only the caller's usedToday to one more and lastUsedAt to now |
| `Routes.GetHistory` | server/routes.ts:116-120 | an admin gets the history of all downloads; anyone else gets only downloads they own |
| `Routes.AdminListUsers` | server/routes.ts:122-125 | an admin gets every user; everyone else gets the gate's 401 or 403 |
| `Routes.AdminCreateUser` | server/routes.ts:127-131 | an admin's valid body appends the new user and answers 201 with it; nothing changes otherwise |
| `Routes.AdminUpdateUser` | server/routes.ts:133-138 | an admin's valid update is merged into the user with that id; an unknown or NaN id escapes as "User not found" and changes nothing |
| `Routes.AdminDeleteUser` | server/routes.ts:140-144 | an admin's delete removes every user with the id, keeps all downloads and answers 204; a NaN id removes nobody |
| `Routes.AdminPatchKeepsProtectedFields` | server/routes.ts:133-137 | no PATCH body can change a user's id, username, password, role, usedToday or lastUsedAt |
| `Routes.ZeroLimitBlocksAnalyze` | server/routes.ts:75-77 | in every table the store can hold, after a PATCH sets an unbanned user's dailyLimit to 0, that user's next valid analyze request is refused with 403 before the tool runs |
| `Routes.BanRevokesSession` | server/routes.ts:60 | after a PATCH bans a user, a session already holding that user's id is refused with 401 |
| `Routes.StaleSessionAdoptsNextUser` | server/routes.ts:55-63 | a session holding a deleted user's reused id is refused until the next user is created, then authenticates as that new user |
| `Routes.SeedAdminLogsIn` | server/routes.ts:31-38 | the seeded admin logs in with the seeded credentials |
| `Routes.SeedThenCreateBob` | server/storage.ts:63-76 | from the seeded state, creating {username: "bob", password: "x"} stores id 2, role "user", dailyLimit 10, usedToday 0, not banned |

## Left out

- File I/O in `loadDB` and `saveDB` is not modelled: the existence check, reads and writes, the `// ` prefix and the regex that strips it, and JSON serialisation. The store is in-memory state. The seeded and unreadable-file states are its two constructors.
- Seeding happens whenever the database file is missing. The model seeds only at construction.
- The extraction tool is not modelled: the child process, its shell command line, the 10 MB output buffer and `JSON.parse` of its output. Their result is the `Outcome` input. Malformed entries in the tool's output that would throw are not modelled either: a null format, or a non-string url.
- Session machinery is not modelled: express-session, the memory store, cookie lifetime and `req.session.destroy`'s callback. A session is an optional user id.
- Concurrency is not modelled. This covers lost updates between overlapping requests, and a user deleted between `createDownload` and `updateUser`. Without it, the `catch` that turns a failing `updateUser` into a 400 during analyze is unreachable, which `Routes.Analyze` asserts.
- Time is not modelled: `new Date()` values are a caller-supplied natural number, and one reading serves as both createdAt and lastUsedAt of an analyze call. No `banUntil` expiry check and no daily `usedToday` reset exist in the code, and none is added.
- The error handler of the web framework is not modelled. A validation failure outside a `try`, or "User not found" escaping the PATCH handler, is the `Unhandled` response, without a status code.
- `parseInt` of the `:id` path segment is not modelled. The admin handlers receive its result, with `None` standing for NaN.
- The url syntax check of the validation library is the `isUrl` parameter.
- JSON numbers are integers. Fractional numbers, and `String()` of a fractional number, are not modelled.
- `SharedRoutes.NatToString`, `SharedRoutes.IntToString` and `SharedRoutes.ValueString` write every integer in decimal digits. JavaScript numbers are doubles, so `String` prints 1e21 and above in exponent form ("1e+21"). Ids and counters are also no longer exact above 2^53: `Math.max(...) + 1` and `usedToday + 1`. Ids grow by one from 1 and no request can set one, so real ids never get that large; the model's integers are unbounded.
- `Object.entries` puts integer-like keys first. `BuildUrl` takes the entries already in that order.
- Key order is not modelled, so neither are the JSON key order of response bodies nor the order of fields inside stored rows.
- The client code is not modelled (pages, components and the data-fetching hook), since it is UI only.
- The drizzle table definitions serve only as field lists.
- `Tables.History`: the order among downloads with equal createdAt is left unstated. The source's sort is stable, and `Tables.SortNewest` is stable too, but no lemma states it.
- `Tables.ApplyPatch`: an update can carry only the fields that the two callers of `updateUser` send. These are the PATCH body's fields and the analyze handler's usage bump. An arbitrary `updates` object is not modelled.
