# License manager — Dafny model

A model of a small license manager. One table of licenses (`licenses`) is
shared by two front ends: chat-platform slash commands (`/activate`,
`/revoke`, `/licenses`) and an HTTP dashboard API behind an admin session.
The model covers:

- **the registry** (`database.dfy`, module `Registry`): the table as a class
  `LicenseTable` whose `rows` and SERIAL counter `nextId` are updated in place
  by `CreateLicense` (INSERT, refused on a duplicate user id or key) and
  `RevokeLicense` (UPDATE by user id, unconditional). The read-only queries
  `GetLicenseByUserId` and `GetAllLicenses` (sorted newest activation first,
  ties broken by id, LIMIT/OFFSET, COUNT) are functions of the rows. The invariant `Valid` holds
  the two UNIQUE constraints, distinct ids, and "revoked_at and revoked_by are
  set exactly when the status is revoked";
- **the key generator** (`key_generator.dfy`): the loop that turns four groups
  of four random bytes into `XXXXX-XXXXX-XXXXX-XXXXX`, with the bytes taken as
  a parameter;
- **the web API** (`server.dfy`, module `WebApi`): the `isAuthenticated`
  gate, login, logout and check-auth over a `Session` object, the list
  endpoint (ASCII case-insensitive substring search, JavaScript `slice`
  paging, `Math.ceil` page count), the stats endpoint and the revoke
  endpoint's 404/400/200 decision;
- **the three chat commands** (`activate.dfy`, `revoke.dfy`, `licenses.dfy`):
  which reply is given and which registry and platform calls are made.
  Platform side effects are success/failure flags in a `Guild` value, and each
  command returns the log of calls it made;
- JavaScript built-ins the code depends on (`js.dfy`), an `Option` type
  (`options.dfy`), the platform inputs (`platform.dfy`) and two end-to-end runs
  (`scenarios.dfy`).

Two behaviours of the code that are easy to misread:

- the dashboard's list and stats read `getAllLicenses(10000, 0)`. So the stats
  count only the 10000 most recently activated rows, and the search only sees
  those rows. Without a search, the list's `total` is still the full row count
  (`WebApi.StatsCounts`, `WebApi.ListTotal`);
- a refused INSERT in `/activate` is answered with "Activation Failed", not
  with "already activated". In this model, where calls run one after another,
  the caller was just looked up and not found, so the refusal can only come
  from a key collision. In the running system a second `/activate` by the same
  user that lands between the lookup and the INSERT is refused by the user_id
  constraint and gets the same reply.

## Model

| member | source | states |
|---|---|---|
| `Registry.LicenseTable.constructor` | src/database.js:13-22 | a new table is empty, satisfies the schema invariant, and its id sequence starts at 1 |
| `Registry.LicenseTable.CreateLicense` | src/database.js:36-52 | gives `None` with the rows unchanged exactly when the user id or the key is already present; otherwise appends exactly one active row with the given user, username and key, activated now, no revocation fields, and returns it; the invariant (both UNIQUE constraints) is preserved and the row count never decreases |
| `Registry.LicenseTable.RevokeLicense` | src/database.js:84-95 | sets status revoked, revoked_at = now and revoked_by on the user's row only, whatever its status (a second call overwrites both), other rows and columns untouched, same row count; returns the updated row, or `None` with nothing changed for an unknown user |
| `Registry.GetLicenseByUserId` | src/database.js:54-65 | returns a row exactly when some row has that user id; the row returned has that user id; on a table with unique user ids it is the only such row |
| `Registry.SortByActivation` | src/database.js:71 | the rows ordered by activated_at descending and, among equal activation times, by id descending (the corrected query, see Findings); a permutation of the table |
| `Registry.NewestFirstIsUnique` | src/database.js:71 | two orders by (activated_at, id) descending of the same rows, where ids identify rows, are the same list |
| `Registry.OrderIsDetermined` | src/database.js:71 | on a table with unique ids, every order the tie-broken query may return is `SortByActivation(rows)`, so separate page queries agree on it |
| `Registry.TiedRowsListedTwice` | src/database.js:71 | with the query as written, two rows activated at the same time, limit 1 and two legal tie orders give pages that list one row twice and the other never |
| `Registry.GetAllLicenses` | src/database.js:67-82 | at most `limit` rows: exactly `min(limit, rows - offset)` of them, none past the end; `total` is the full row count whatever limit and offset are |
| `Registry.PageContents` | src/database.js:67-82 | row i of a page is row `offset + i` of the table sorted by activated_at descending; every page is sorted and holds only rows of the table |
| `Registry.Window` | src/database.js:70-73 | `LIMIT limit OFFSET offset`: `min(limit, length - offset)` elements, element i being element `offset + i` |
| `Registry.WindowsFormSuffix` | src/database.js:67-82 | consecutive windows of width `limit` from an offset on, concatenated, are the list from that offset on |
| `Registry.PagesFromIsSuffix` | src/database.js:67-82 | paging with a fixed limit from an offset on yields exactly the sorted rows from that offset |
| `Registry.PagingCoversTable` | src/database.js:67-82 | on a table with unique ids, walking the offsets 0, limit, 2·limit, … yields every row exactly once, newest activation first, whatever tie-broken order each page query picks |
| `Registry.LookupAfterInsert` | src/database.js:36-65 | after an accepted insert the new user's lookup finds the new row and every other lookup is unchanged |
| `Registry.InsertKeepsWellFormed` | src/database.js:13-52 | an insert without a conflict and with a fresh id keeps user ids, keys and ids unique and the revocation fields consistent |
| `Registry.RevokeKeepsWellFormed` | src/database.js:84-95 | the revoking update keeps the table well-formed |
| `Registry.LookupAfterRevoke` | src/database.js:84-95 | after the update the target's lookup gives its old row revoked by the given actor at now; other users' lookups are unchanged |
| `KeyGenerator.GenerateLicenseKey` | src/utils/keyGenerator.js:3-10 | the loop that pushes one segment per byte group and joins them with '-' produces `LicenseKey(random)` |
| `KeyGenerator.ToHex` | src/utils/keyGenerator.js:6 | two lower-case hex digits per byte, high nibble first |
| `KeyGenerator.Segment` | src/utils/keyGenerator.js:6 | exactly 5 characters, every one an upper-case hex digit |
| `KeyGenerator.KeyLayout` | src/utils/keyGenerator.js:9 | the key is the four segments with a dash between each pair |
| `KeyGenerator.KeySegment` | src/utils/keyGenerator.js:5-9 | the key has length 23 and its characters 6i..6i+5 are the segment of byte group i |
| `KeyGenerator.KeyShape` | src/utils/keyGenerator.js:3-10 | length 23, a dash at indices 5, 11 and 17 and nowhere else, every other character in 0-9A-F (no lower case) |
| `KeyGenerator.SegmentRoundTrip` | src/utils/keyGenerator.js:6 | decoding a segment gives back the first two bytes and the high nibble of the third byte of its group |
| `KeyGenerator.KeyRoundTrip` | src/utils/keyGenerator.js:5-9 | parsing a generated key gives, for each segment i, the decoded bytes of group i: the key is a deterministic function of the input and segment i depends only on group i |
| `Js.ToLowerCase` | src/server.js:84-88 | same length, each character ASCII-lower-cased, so no ASCII upper-case letter is left |
| `Js.ToUpperCase` | src/utils/keyGenerator.js:6 | same length, each character ASCII-upper-cased, so no ASCII lower-case letter is left |
| `Js.Includes` | src/server.js:86-88 | true exactly when the needle occurs at some index of the string |
| `Js.Slice` | src/server.js:93 | the result is no longer than the list, and no longer than `end - start` for a non-negative window |
| `Js.CeilDiv` | src/server.js:99 | `Math.ceil(a / b)`: the least q with a ≤ q·b for a positive divisor, the least q with q·b ≤ a for a negative one |
| `Js.OrDefault` | src/server.js:76-77 | the defaulting of `parseInt(x)` to d: the default for NaN or 0, the parsed value otherwise; never 0 with a non-zero default, so a defaulted limit is a usable divisor |
| `WebApi.IsAuthenticated` | src/server.js:43-48 | lets the route run exactly when the session is admin, otherwise answers 401 |
| `WebApi.Login` | src/server.js:54-63 | the session becomes admin exactly when the password equals the configured one; otherwise 401 and the session is unchanged |
| `WebApi.Logout` | src/server.js:65-68 | the session is no longer admin; success response |
| `WebApi.CheckAuth` | src/server.js:70-72 | reports the admin claim as a boolean |
| `WebApi.FilterMatching` | src/server.js:85-89 | keeps exactly the rows whose lower-cased username, key or user id contains the needle, each as often as in the input, never more rows than the input |
| `WebApi.FilterKeepsOrder` | src/server.js:85-89 | filtering a list sorted newest activation first leaves it sorted |
| `WebApi.ApplySearch` | src/server.js:79-91 | an empty search leaves list and total as fetched; a non-empty one keeps exactly the matching rows, in newest-first order when the fetched list is, and sets total to their number |
| `WebApi.FoundSorted` | src/server.js:79-91 | the fetched rows after the search step are newest activation first |
| `WebApi.ListedNewestFirst` | src/server.js:79-93 | with a page and a limit that are not negative, the listed page is newest activation first |
| `WebApi.ListLicenses` | src/server.js:74-105 | 401 without an admin session; otherwise 200 with the page body |
| `WebApi.SliceWindow` | src/server.js:93 | `slice(offset, offset + limit)` with a non-negative offset is the same window as `LIMIT limit OFFSET offset` |
| `WebApi.ListBounds` | src/server.js:76-92 | a missing or zero page or limit becomes 1 or 50; for a non-negative page and limit both are at least 1 and the offset `(page-1)·limit` is not negative |
| `WebApi.ListWindow` | src/server.js:76-93 | the listed rows are the window of `limit` found rows at offset `(page-1)·limit`, cut to the list |
| `WebApi.ListTotal` | src/server.js:81-100 | total is the table's row count without a search and the filtered count with one; page echoes the request; totalPages is `CeilDiv(total, limit)` |
| `WebApi.CountStatus` | src/server.js:113-114 | never more than the number of rows; equal to it exactly when every row has that status |
| `WebApi.StatusCountsPartition` | src/server.js:111-115 | active + revoked = number of rows counted |
| `WebApi.CountStatusPermutation` | src/server.js:109-115 | a status count does not depend on row order |
| `WebApi.StatsCounts` | src/server.js:107-122 | total is the row count capped at 10000, active + revoked = total, and on a table of at most 10000 rows the counts are the table's own |
| `WebApi.Stats` | src/server.js:107-122 | 401 without an admin session; otherwise 200 with the stats body |
| `WebApi.RevokerOf` | src/server.js:127 | the given admin id, or "web-admin" when it is absent or empty; never empty |
| `WebApi.RevokeEndpoint` | src/server.js:124-145 | 401 and no change without an admin session; 404 and no change for no license; 400 and no change if already revoked; otherwise the row is revoked by the admin id and 200 returns the updated row; the id sequence never moves |
| `ActivateCommand.Execute` | src/commands/activate.js:10-107 | an existing license is reported with its key and status and nothing is created; otherwise one key is generated, one create is attempted with the caller's id, tag and that key, and the id sequence advances by one whether or not the create succeeds; a refused create gives "Activation Failed" with no platform call; the role is created only when none is cached; full success gives "License Activated" with the key sent by DM; any platform failure gives "Partial Activation" with the same key and the license is kept |
| `RevokeCommand.Execute` | src/commands/revoke.js:15-77 | no license gives "License Not Found" with no change; already revoked gives "Already Revoked" with the stored revoked_at and revoked_by and no revoke call; otherwise exactly one revoke by the invoker, and the role is removed exactly when the role exists and the member holds it; the reply is "License Revoked" with the key even if that fails |
| `RevokeCommand.RevokeTwice` | src/commands/revoke.js:21-49 | revoking the same active license twice gives "License Revoked", then "Already Revoked" with the first run's time and admin, and the table keeps the first run's metadata |
| `ListCommand.PageOf` | src/commands/licenses.js:8-19 | an absent page option becomes 1, a given one is kept; either way the page is at least 1 |
| `ListCommand.FieldOf` | src/commands/licenses.js:44-60 | a field per license holding key, status and activation lines, plus the revocation line if and only if revoked_at is set |
| `ListCommand.Execute` | src/commands/licenses.js:16-63 | reads `getAllLicenses(10, (page-1)·10)`; "No licenses found" exactly when the offset is past the table; otherwise one field per listed license in listed order, at most 10, total = row count, totalPages = `CeilDiv(total, 10)` |
| `ListCommand.CommandPagesCoverTable` | src/commands/licenses.js:19-23 | the command's pages of 10, concatenated, are the whole table newest first, every license exactly once, whatever tie-broken order each page query picks |
| `Scenarios.LicenseLifecycle` | src/commands/activate.js:16-46 | activate, activate again (same key, active), then the `/revoke` flow of src/commands/revoke.js:21-49 twice ("Already Revoked" with the first revocation's time and admin) |
| `Scenarios.UnauthenticatedBrowser` | src/server.js:43-63 | a wrong password gets 401 and the license list then answers 401 whatever the query |

## Findings

| source | as written | input that shows it | evidently intended | confidence | as-written member | corrected member |
|---|---|---|---|---|---|---|
| src/database.js:71 | `ORDER BY activated_at DESC LIMIT $1 OFFSET $2`: no tie-breaker, so each page query may order rows with equal activated_at differently | two active rows with the same activated_at, limit 1: the page at offset 0 may return the second row and the page at offset 1 may return it again, so one row is listed twice and the other never | `ORDER BY activated_at DESC, id DESC`, a total order on a table with unique ids, so every page query returns the same order and paging lists each row exactly once | medium (ties need two activations in the same clock tick); not executed | `Registry.TiedRowsListedTwice` | `Registry.PagingCoversTable` |

## Left out

- The pg connection pool, SSL setup, the SQL text and `initDatabase`: the table's semantics are modelled, not the driver.
- Storage failures (thrown errors turned into HTTP 500 or the commands' generic error reply): the in-memory table never fails.
- VARCHAR(255) length limits: an over-long value would raise an error other than 23505. It is not modelled.
- `crypto.randomBytes`: the bytes are a parameter, and the uniqueness of random keys is not modelled.
- Discord API calls (member fetch, role create/add/remove, DM), `deferReply`/`editReply`, embed formatting, colours and `<t:…>` timestamp rendering: they become `Guild` flags, the call log and reply tags.
- Express and session middleware, cookie options, cache headers and the startup checks of the environment. The only one kept is that the admin password is not empty.
- `Date` and `CURRENT_TIMESTAMP`: an abstract `nat` clock is passed in.
- `parseInt` on query strings: `page` and `limit` arrive already parsed (`None` stands for NaN). A non-string `search` (which would throw) is not modelled.
- Unicode case mapping: `toLowerCase`/`toUpperCase` are modelled on ASCII letters only.
- Registry.SortByActivation: models the query with the id tie-breaker (see Findings), not the query as written, whose order among rows with equal activated_at is unspecified and may differ between queries. `ActivationOrder` and `TiedRowsListedTwice` keep the as-written order.
- WebApi.ListWindow: states the window only for a non-negative page and limit. Negative values go through the modelled JavaScript `slice` semantics in `ListLicensesBody` but have no lemma of their own.
- The status column is a VARCHAR, but the core only writes 'active' and 'revoked', so it is an enumeration here. Hence active + revoked always equals the counted total.
- Concurrent activations and revocations racing at the database: every call is sequential here.
- src/index.js (gateway login, command registration, event wiring) and public/script.js (the browser dashboard) are not part of this model.
