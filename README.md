# Kids Points Tracker — a verified model

The Kids Points Tracker is a small web application that parents use to give
and take away points from their children. The server (`server.js`) keeps four
SQLite tables:

- `kids`: name, initials, colour and a running balance;
- `transactions`: the history of point changes;
- `tags`: labels such as "Chores" or "TV";
- `sessions`: login tokens that last a year.

Writes need either the admin password or a live session token. The browser
client (`public/app.js`) keeps the session token in `localStorage` and sends
at most one credential with each write: the token when it holds one,
otherwise the password when one is held, otherwise none. It also checks inputs before sending
and derives small display values.

This project models both halves in Dafny:

- `wrappers.dfy` and `js.dfy`: `Option`/`Result`, JavaScript truthiness and
  the `x || fallback` default.
- `text.dfy`: JavaScript `trim` (ECMAScript whitespace), ASCII upper-casing,
  SQLite's BINARY text order, and the hexadecimal codec behind session tokens.
- `sessions.dfy`: the sessions table, the credential gate `authenticate`,
  `/api/session/validate`, the startup purge and token generation.
- `ledger.dfy`: the kids table and the balance ledger, whose invariant is
  that every balance equals the sum of that kid's transactions.
- `tags.dfy`: the tags table, its defaults, the unique-name constraint and the
  ordering by name.
- `history.dfy`: the history query, newest first, with its filter and limit.
- `server.dfy`: the server as one `Store` object. The tables are fields, and
  every route handler and the startup code is a member of `Store`. The methods
  that write tables require and re-establish the table invariant `Valid()`.
  The read-only handlers read the tables as they are; all of them except
  `ListTags`, which needs no invariant to sort, also require `Valid()`.
- `client.dfy`: the browser's page state as an `App` object (globals and the
  two `localStorage` keys), the credential headers, `getContrastColor`
  (including a faithful `parseInt(_, 16)`), the relative age buckets of
  `formatTimestamp`, and the checks made before a request is sent.
- `expiry_text.dfy`: session expiries as the text the server really compares
  (see Findings).

Time is an integer number of milliseconds, and a request's clock reading is a
parameter. Transaction timestamps are whole seconds, as SQLite's
`CURRENT_TIMESTAMP` stores them. The 32 random bytes behind a token are a parameter too. Tables are
sequences in rowid order, and each AUTOINCREMENT counter is an explicit field.

## Model

| member | source | states |
|---|---|---|
| Js.OrElse | server.js:82-83 | the result is JavaScript's logical OR of the value and the fallback (`Js.Or`, decided by `Truthy`), with a missing value read as `undefined`: a present, non-empty value is returned as is, a missing or empty one gives the fallback |
| Text.Trim | server.js:94 | the result is no longer than the input and has no ECMAScript whitespace at either end |
| Text.TrimOfPadded | server.js:94-95 | whitespace of any kind around a word is removed and the word comes back unchanged |
| Text.TrimIdempotent | server.js:107 | trimming twice is the same as trimming once |
| Text.TrimOfBlank | public/app.js:557-563 | a string trims to empty exactly when it is all whitespace |
| Text.Utf16Length | public/app.js:495 | JavaScript's `length`: between the number of code points and twice that |
| Text.Utf16Units | public/app.js:495 | a character counts two code units exactly when it lies beyond U+FFFF |
| Text.Utf16LengthTwo | public/app.js:495 | a text is two code units long exactly when it is two characters below U+10000 or one character above |
| Text.ToUpperAsciiKeepsUtf16Length | public/app.js:492-495 | upper-casing does not change the length the initials check sees |
| Text.ToUpperAscii | public/app.js:492 | upper-casing keeps the length and maps each lower-case ASCII letter to its capital, other characters unchanged |
| Text.StrLeTotal | server.js:218 | any two names are comparable under the BINARY collation |
| Text.StrLeAntisymmetric | server.js:218 | names ordered both ways are equal |
| Text.StrLeTransitive | server.js:218 | the BINARY order is transitive |
| Text.StrLeCommonPrefix | server.js:87 | a common prefix does not change how two texts compare |
| Text.HexEncode | server.js:77 | two lowercase hexadecimal digits per byte |
| Text.HexDigitRoundTrip | server.js:77 | every nibble is read back from its digit |
| Text.HexRoundTrip | server.js:77 | decoding the hex text of a byte string gives the bytes back |
| Text.HexEncodeInjective | server.js:77 | different byte strings have different hex texts |
| Sessions.AdminPassword | server.js:10 | the admin password is never empty; a set, non-empty environment value wins |
| Sessions.SessionExpiryBoundary | server.js:87 | a stored session is accepted at every instant before its expiry and at none from it on |
| Sessions.LiveTokenAuthorizes | server.js:85-91 | a non-empty live token is enough, whatever password comes with it |
| Sessions.DeadTokenFallsBackToPassword | server.js:93-99 | when the token is missing, empty, unknown or expired, the request passes exactly when the trimmed password matches |
| Sessions.NoCredentialsDenied | server.js:81-100 | a request with neither header is refused |
| Sessions.PaddedPasswordAuthorizes | server.js:94-95 | the admin password surrounded by whitespace is accepted |
| Sessions.ValidateSession | server.js:144-158 | status 200 with valid true exactly when a non-empty live token is sent; 401 with valid false otherwise |
| Sessions.ValidatedTokenAuthorizes | server.js:144-158 | a token the validate endpoint accepts also passes `authenticate` |
| Sessions.PurgeExpired | server.js:241 | exactly the live sessions survive, with their rows unchanged |
| Sessions.PurgeIdempotent | server.js:241 | a second purge at the same instant removes nothing more |
| Sessions.PurgeKeepsLiveSessions | server.js:241 | the purge changes no authentication at that instant or later |
| Sessions.NewSessionToken | server.js:76-78 | a token is 64 lowercase hexadecimal digits |
| Sessions.NewSessionTokenInjective | server.js:76-78 | different random bytes give different tokens |
| Ledger.SumPointsConcat | server.js:182-183 | the points of a concatenated history are the sum of the two parts |
| Ledger.SumPointsAppend | server.js:182-183 | appending one transaction adds exactly its points to its own kid's sum and nothing to others |
| Ledger.SumPointsOfOthers | server.js:182-183 | a kid with no transactions sums to zero |
| Ledger.SumPointsRemove | server.js:182-183 | removing one transaction takes away exactly its contribution |
| Ledger.SumPointsPermutation | server.js:182-187 | any reordering of the history gives every kid the same sum |
| Ledger.FindKid | server.js:190 | a kid is found exactly when one has the id, and the row found has that id |
| Ledger.Credit | server.js:186-187 | only rows with the kid's id change, and only their balance, by exactly `points` |
| Ledger.CreditKeepsIds | server.js:186-187 | a credit keeps the ids, their order and the set of existing kids |
| Ledger.CreditKeepsBalancesMatch | server.js:182-187 | appending a transaction and crediting its kid keeps every balance equal to its sum |
| Ledger.FindKidAfterCredit | server.js:186-190 | the kid read back after a credit is the old row with `points` added to its balance |
| Ledger.CreditUndone | server.js:186-187 | a credit followed by the opposite credit restores every kid |
| Ledger.CreditsCommute | server.js:186-187 | credits commute, so final balances do not depend on request order |
| Ledger.Restyle | server.js:169-170 | the row with that id gets the new name, initials and colour; other rows are untouched |
| Ledger.RestyleUnknownIsNoop | server.js:169-171 | an update for an unknown id changes nothing |
| Ledger.RestyleKeepsLedger | server.js:169-170 | a kid update keeps balances, ids, their order and the ledger invariant |
| Tags.PositiveFlag | server.js:228 | the stored flag is 0 or 1, and it is 1 exactly when the sent value is truthy |
| Tags.AppendKeepsNamesUnique | server.js:41 | inserting a name not yet present keeps names unique |
| Tags.DefaultRows | server.js:63-72 | the default rows are numbered consecutively from the counter, in list order |
| Tags.DefaultRowsValid | server.js:63-72 | the default tags have unique names, ascending ids and flags 0 or 1 |
| Tags.InsertByName | server.js:218 | inserting into a name-ordered list keeps it ordered and adds exactly that row |
| Tags.SortByName | server.js:218 | the tag listing is ordered by name and is a permutation of the table |
| Tags.SortByNameSameRows | server.js:217-220 | every stored tag is listed, nothing else is, and the count is the same |
| History.NewestSound | server.js:196-214 | at most `limit` rows; each is a stored transaction of an existing kid that passes the filter, shown with that kid's name, initials and colour |
| History.FilterRespected | server.js:202-205 | with a kid filter, every row belongs to that kid |
| History.ConsNewestFirst | server.js:207 | a row newer than a newest-first list can lead it |
| History.NewestFromTable | server.js:199 | every listed row comes from the transactions table |
| History.NewestOrdered | server.js:207 | rows come newest timestamp first. Rows with the same second are tied, and SQLite may return them in any order; the model's choice among those orders is newest-inserted first |
| History.NewestCount | server.js:207-208 | the listing has min(limit, number of selected transactions) rows |
| History.NewestComplete | server.js:196-214 | a listing shorter than the limit holds every selected transaction |
| History.NewestKeepsNewer | server.js:207-208 | a selected transaction left out is no newer than any listed one |
| Server.ApiError.Status | server.js:98 | `Unauthorized` and `Incorrect password` are 401, `Tag already exists` is 400, `Failed to create session` is 500; the Login, UpdateKid, AddTransaction and AddTag contracts state their failures through it |
| Server.CurrentTimestamp | server.js:35 | `CURRENT_TIMESTAMP` is the clock reading cut to the whole second: the second that contains the reading |
| Server.CurrentTimestampMonotone | server.js:35 | a later clock reading never gets an earlier timestamp |
| Server.SameSecondTies | server.js:35 | every reading within one second gets that second, so transactions can share a timestamp |
| Server.Store.Record | server.js:182-190 | the insert and the balance update of a new transaction: one row appended with the next rowid, the counter advanced, the kid credited with `points`, the re-read kid is the old row with its balance raised by `points`, and the store invariant still holds |
| Server.RecordKeepsStore | server.js:182-187 | the two writes of a new transaction keep the whole store invariant (kids, ledger and tags tables with their counters) |
| Server.CreditKeepsKids | server.js:186-187 | the balance update keeps kid ids ascending and below the kids counter |
| Server.RestyleKeepsInvariants | server.js:167-172 | a kid update keeps the kids invariant and the ledger invariant, since it touches neither ids nor balances |
| Server.AddTransactionKeepsLedger | server.js:182-187 | the two writes of a new transaction keep ascending rowids, time order, the foreign key and the balance invariant |
| Server.Store.constructor | server.js:17-51 | a fresh database has empty tables with counters at 1 and satisfies the invariant |
| Server.Store.SeedDefaultKids | server.js:53-58 | an empty kids table gets Kid 1 (K1, #FF6B6B) and Kid 2 (K2, #4ECDC4) with balance 0; a non-empty one is untouched |
| Server.Store.SeedDefaultTags | server.js:60-73 | an empty tags table gets the five defaults in order; a non-empty one is untouched |
| Server.Store.PurgeExpiredSessions | server.js:240-241 | the sessions table becomes its purge at `now`, and the invariant holds |
| Server.Store.Startup | server.js:53-73 | seeding and purge together: into an empty kids table the rows `Kid 1`/`K1`/`#FF6B6B` and `Kid 2`/`K2`/`#4ECDC4` with the next two ids and balance 0; into an empty tags table the five defaults with consecutive ids; non-empty tables and their counters untouched; transactions untouched; exactly the live sessions kept |
| Server.Store.ValidateSessionRoute | server.js:144-158 | the validate route on the store's own sessions table: 200 and valid exactly for a non-empty live token, and a token it accepts also passes `authenticate`; nothing is written |
| Server.Store.Login | server.js:105-141 | a wrong trimmed password gives 401; a right one stores a new session expiring one year after `now`, created at the current whole second, and returns its token; a token already stored gives 500 and no change |
| Server.Store.ListKids | server.js:161-164 | every kid, by ascending id |
| Server.Store.UpdateKid | server.js:167-172 | unauthorised requests get 401 and change nothing; otherwise the kid's display fields are set, and balances and ids never change |
| Server.Store.AddTransaction | server.js:175-193 | unauthorised requests get 401 and change nothing; otherwise one row is appended with tag default `General` and note default empty, the kid's balance rises by `points`, the updated kid is returned, and the ledger invariant holds |
| Server.Store.ListTransactions | server.js:196-214 | at most `limit` rows (default 50), newest first, each a stored transaction passing the join and the filter |
| Server.Store.ListTags | server.js:217-220 | the tags ordered by name, a permutation of the table |
| Server.AddTagKeepsTags | server.js:223-233 | appending a tag whose name is new, with the next id and a 0/1 flag, keeps ids ascending and below the counter, names unique and flags normalised |
| Server.Store.AddTag | server.js:223-233 | unauthorised requests get 401; a name already present gives 400 and no change; otherwise the tag is appended with flag 0 or 1 and names stay unique |
| ExpiryText.SameDayLiveAsWritten | server.js:87 | as written, on its expiry's calendar day a session is accepted at every time of day and is not purged |
| ExpiryText.ExpiredSessionAcceptedAsWritten | server.js:151 | as written, a session that expired at 10:00 is still accepted, and not purged, at 23:59 that day |
| ExpiryText.IntendedRejectsExpired | server.js:241 | the intended instant comparison refuses a session once its expiry has passed |
| Client.AuthHeaders | public/app.js:49-61 | the content type is always JSON; the token is sent when one is held, otherwise the password when non-empty, never both |
| Client.LiveSessionHeadersAuthorize | public/app.js:49-61 | a client holding a live session passes `authenticate` |
| Client.PasswordHeadersAuthorize | public/app.js:56-58 | a client without a token passes exactly when its trimmed password is the admin password |
| Client.StaleTokenShadowsPassword | public/app.js:54-58 | a client holding a dead token is refused even if it knows the password |
| Client.App.constructor | public/app.js:1-8 | page load starts with no password and no token in memory, over the stored keys |
| Client.App.GetStoredSession | public/app.js:15-32 | returns the stored token exactly when both keys are set and the expiry is after `now`; an expired pair is cleared; with a key missing nothing changes |
| Client.App.StoreSession | public/app.js:35-39 | both keys are written and the token is held |
| Client.App.ClearStoredSession | public/app.js:42-46 | both keys are removed and the token is dropped |
| Client.App.StoreThenGetStoredSession | public/app.js:15-39 | a stored session is read back before its expiry, and the token stays held |
| Client.App.HandleApiResponse | public/app.js:64-72 | a 401 clears the token and both stored keys and fails with the session-expired error; the next request then carries the password only if one is held, and after a login that got an answer the password is cleared, so it carries no credential (a login that failed to connect leaves the typed password in memory, and it is then sent); any other status passes with no change |
| Client.App.IncrementPoints | public/app.js:315-318 | adds exactly one |
| Client.App.DecrementPoints | public/app.js:320-324 | subtracts one only above 1, so a value of at least 1 stays at least 1 |
| Client.Substr | public/app.js:307-309 | the substring is at most `length` long, and exact when it fits |
| Client.SkipWhitespace | public/app.js:307-309 | `parseInt` starts at the first character that is not JavaScript whitespace: everything skipped is whitespace and the stop is not |
| Client.HexRunEnd | public/app.js:307-309 | the digits read are the longest run of hexadecimal digits from the start point: all of them are digits and the next character is not |
| Client.ParseIntHex | public/app.js:307-309 | a number comes out only when the text holds a hexadecimal digit |
| Client.ParseTwoHexDigits | public/app.js:307-309 | two hexadecimal digits, in either case, parse to the byte they spell |
| Client.ParseIntHexOfByte | public/app.js:307-309 | every byte's two-digit hex text parses back to the byte |
| Client.Channel | public/app.js:307-309 | each channel of `#RRGGBB` is between 0 and 255 |
| Client.BrightThreshold | public/app.js:310-311 | for integer channels, brightness above 155 is 299r + 587g + 114b above 155000 |
| Client.ChannelParses | public/app.js:307-309 | each two-digit field of a `#RRGGBB` colour parses to its channel |
| Client.ContrastColor | public/app.js:306-312 | the text colour is `#000000` or `#ffffff`, and black only when all three channels parse |
| Client.ContrastOfHexColor | public/app.js:306-312 | for `#RRGGBB`, black exactly when 299r + 587g + 114b > 155000, white otherwise |
| Client.ContrastOfShortColor | public/app.js:307-311 | a colour with no red field gives white text (the brightness is NaN) |
| Client.FormatAge | public/app.js:435-443 | "Just now" below a minute (negative ages included); whole minutes 1-59 below an hour; whole hours 1-23 below a day; the date from a day on |
| Client.FormatAgeMonotone | public/app.js:438-443 | an older row never shows a younger age |
| Client.UpdateKidRequest | public/app.js:490-506 | a request is sent exactly when the name is non-empty, the initials are two UTF-16 code units long (JavaScript's `length`) and a credential is held; it carries upper-cased initials and the client's headers |
| Client.InitialsCountCodeUnits | public/app.js:495 | one emoji (U+1F600) passes the two-initials check and two emoji do not, since `length` counts UTF-16 code units; two ASCII letters pass |
| Client.UpperInitials | public/app.js:492 | two ASCII letters become two capitals of the same letters |
| Client.NewTagRequest | public/app.js:556-572 | a request is sent exactly when the name is not all blank; it carries the trimmed, unpadded name and is positive exactly for type `1` |
| Client.NewTagFlagStored | public/app.js:558 | a positive new tag is stored with flag 1, any other with flag 0 |
| Client.PointsRequest | public/app.js:331-392 | nothing is sent without a selected kid (none or id 0); removal sends `-points`; the tag defaults to `General` |
| Client.AddThenRemoveRestores | public/app.js:344-376 | adding and then removing the same points for one kid leaves every balance as it was |

## Left out

- HTTP and Express plumbing, JSON parsing, console logging, static files and `app.listen`: a route is a method over its already-parsed inputs.
- Browser-only code: DOM updates, `alert`, animations, `setTimeout`, the `fetch` promise chains, `login`, `validateSession`, and the rendering of kids, tags and history.
- The locale-formatted branch of `formatTimestamp` (public/app.js:444): Dafny has no locale, so it is the `OlderThanADay` age. The words "minutes ago" and "hours ago" are not modelled, only the numbers.
- Client.FormatAge: the age `now - date` is taken as given. Parsing the stored timestamp text is left out; the browser reads it as local time.
- Sessions.SESSION_LIFETIME_MS: one year after login is modelled as 365 days. Leap days and time zones in the calendar-year step are left out.
- Sessions.IsLive: it compares instants. The server actually compares two text formats; the gap is modelled separately in `ExpiryText` and described under Findings.
- Server.Store.AddTransaction: that the kid exists is a precondition of authorised calls; an unknown kid id is not modelled. What the server does then depends on whether the SQLite build enforces foreign keys: either the insert fails and Express answers 500 with nothing written, or an orphan row is stored, nobody is credited and the reply carries no kid. Neither is modelled.
- Server.Store.AddTransaction: the clock is a precondition. Its second must not be behind the latest stored timestamp.
- History.NewestOrdered: rows written in the same second tie on `ORDER BY t.timestamp DESC`, and SQLite may return tied rows in any order. The model returns them newest-inserted first, which is one of the allowed orders, not a promise of the source.
- Server.Store.AddTransaction: a missing or `null` `kid_id` or `points` breaks a NOT NULL constraint in the insert, which throws and answers 500 with nothing written. The client sends `null` points when the input is not a number. Points that are not integers are stored as REAL and added to the balance. The model takes integer `kidId` and `points`, so none of these cases is represented.
- Server.Store.UpdateKid and Server.Store.AddTag: missing body fields are left out. The NOT NULL constraints they would violate are not modelled, and fields are strings.
- Server.Store.ListTransactions: the `kid_id` and `limit` query texts are taken as already parsed. The text `"0"` is truthy as a filter, and a non-numeric limit does not parse.
- Server.Store.AddTransaction: points and balances are unbounded integers. In the program the points arrive as a JSON number, a double that is exact only up to 2^53, and SQLite's INTEGER is 64 bits: a value or a `balance + ?` sum beyond 64 bits is stored as a REAL and rounded, after which the balance no longer equals the sum of the points. Neither limit is modelled.
- Ledger.Credit: `balance + points` is exact integer addition; the 64-bit overflow to REAL described for AddTransaction is not modelled.
- Zero or negative points are accepted by the server, and no balance is clamped. The model keeps this as written.
- Client.App.IncrementPoints and Client.App.DecrementPoints: the input is held as the integer it parses to. Text that does not parse (`NaN`) is left out.
- Client.App.GetStoredSession: the expiry key is held as the instant it denotes. Text that does not parse as a date (`Invalid Date`, which clears the pair) is left out.
- Client.Substr: positions and lengths count code points, while JavaScript's `substr` counts UTF-16 code units. The two agree on text without characters beyond U+FFFF, which includes every `#rrggbb` colour the colour input produces.
- Text.ToUpperAscii: only ASCII letters are upper-cased. JavaScript's full Unicode mapping, which can change a string's length, is left out.
- There are no delete endpoints for kids, tags or sessions in `server.js`, so none is modelled.
- The `randomBytes` entropy is a parameter. A token collision is the insert failure that answers 500.
- Concurrency between requests is left out: each route runs as one atomic step. This matches better-sqlite3's synchronous calls on one Node.js thread.

## Findings

| source | as written | input that shows it | evidently intended | confidence | as-written member | corrected member |
|---|---|---|---|---|---|---|
| server.js:87, 125, 151, 241 | `expires_at` is stored as ISO text, `YYYY-MM-DDTHH:MM:SS.mmmZ`, and compared as text against `datetime('now')`, `YYYY-MM-DD HH:MM:SS`. On the expiry's own day the eleventh character decides, and `' '` sorts before `'T'`. | A session expiring 2027-03-14 10:00 UTC, checked at 2027-03-14 23:59 UTC, is accepted by `authenticate` and `/api/session/validate` and kept by the startup purge. | A session is accepted only before its expiry instant. | high (not executed) | ExpiryText.ExpiredSessionAcceptedAsWritten | Sessions.SessionExpiryBoundary |
