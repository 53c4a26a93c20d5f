# item-service, modelled in Dafny

This project models the core of item-service, a JSON HTTP API that keeps a
catalogue of items (name, model, supplier, price, currency, image, notes,
tags). The API serves the catalogue to users who authenticate with bearer
tokens and hold the permissions `items:read` and `items:write`. The model
covers the following parts, one Dafny module per Go file:

- `Items` (`data_items.dfy`) models the item record and its validation rules. Its `ItemModel` class is the repository over an in-memory table `id → Item`:
  - `Insert`, `Get`, `Update` (a compare-and-swap on `(id, updated_at)`), `Delete` and `GetAll`;
  - `GetAll` filters, orders with an `id` tiebreak, pages and drops the image column.
- `ItemHandlers` (`api_items.dfy`) models the five item handlers, the PATCH merge, and the list defaults and sort safelist.
- `Price` (`data_price.dfy`) models the JSON decoding of a price such as `"$19.99"`. It unquotes the string, drops the first code point and parses the rest. It uses `Utf8` (`utf8.dfy`, after RFC 3629) for the code point.
- `Middleware` (`api_middleware.dfy`) models the per-client table of the rate limiter, with its request step and the janitor's sweep.
- `Responses` (`api_errors.dfy`) models the error helpers, each as a status and a one-key envelope.
- `Routes` (`api_routes.dfy`) models the route table, its permissions, the router's fallbacks and the middleware nesting.
- `UserHandlers` (`api_users.dfy`) models registration and activation.
- `TokenHandlers` (`api_tokens.dfy`) models login, which issues an authentication token.

Small support modules:
- `base.dfy`: `Wrappers`, `Bytes`, `Durations`, and `Models` (the repositories' error values).
- `validator.dfy`: `Validator`, the first-message-wins error map.
- `decimal.dfy`: `Decimal` (`%d` formatting).
- `accounts.dfy`: `Accounts` (the user and token records and the calls on their repositories).

How the model represents the program:

- A handler is a function. It takes the outcome of every collaborator it consults:
  - the decoded body, the id parameter, the repository results, the validator results of files outside this model, and whether `writeJSON` succeeded.

  It returns a `Run`: the collaborator calls it issued and the replies it attempted, in order. A reply is either an error helper or a success envelope. `Responses.Respond` gives the status and body each error helper writes.
- Text is a `string` with one character per byte of the Go string, so lengths are byte counts. The price decoder works on `seq<byte>`.
- Clock readings are integers in nanoseconds. Database timestamps and `time.Now()` are parameters.
- Prices are exact `real` numbers.

Where the code differs from the service's documentation, the model follows the code:

- `notFoundResponse` and `methodNotAllowedResponse` answer 500.
- Registration answers 201, not 202.
- A disabled rate limiter writes nothing and does not call the next handler; it does not bypass. net/http then ends the request with an empty 200, and no handler runs.
- Each new client's bucket is `rate.NewLimiter(2, 4)` whatever the configured rate and burst.
- Activation goes on to write the user after a failed token clean-up.

## Model

| member | source | states |
|---|---|---|
| Items.ValidateItemReports | internal/data/items.go:30-38 | the validator gains exactly the fields that fail a check; entries already present keep their message; a new field holds the message of its first failing check |
| Items.ValidateItemAt | internal/data/items.go:31-37 | the same at one key: each of the seven checks adds its key only when it fails and the key is still free |
| Items.ValidateItemKeys | internal/data/items.go:31-37 | every key added is one of name, supplier, price, currency, tags |
| Items.ValidateItemValid | internal/data/items.go:30-38 | a fresh validator ends valid iff name non-empty, at most 255 bytes, supplier ≠ 0, price ≠ 0, price > 0, currency ≠ 0 and tags free of duplicates |
| Validator.CheckAt | internal/data/items.go:31-37 | `Check` records the message only when the condition fails and the key holds none yet, and changes no other key |
| Validator.UniqueIffCardinality | internal/data/items.go:37 | `Unique` (no element twice) holds iff the set of the elements is as large as the slice |
| Validator.Accumulate | cmd/api/tokens.go:25-30 | two validators run on one map: the keys of both, each with its first message |
| Items.Stamped | internal/data/items.go:54 | the scan back of `Insert` sets id and both timestamps and leaves every other field as supplied |
| Items.ItemModel.Insert | internal/data/items.go:44-55 | the new row gets the next id, which was free, both timestamps `now` and `archived = false`; the caller's struct gets the id and timestamps; no other row changes |
| Items.ItemModel.Get | internal/data/items.go:57-95 | id < 1 and an absent id give `ErrNoRecord`; a present id gives the stored row unchanged, and under the table invariant that row carries the id asked for; the table is not modified |
| Items.Replaced | internal/data/items.go:98-117 | the written row takes the ten `SET` columns from the item and `updated_at = now`, and keeps its id and `created_at` |
| Items.ItemModel.Update | internal/data/items.go:97-133 | when a row with that id and `updated_at` exists it is replaced and the new `updated_at` is written back; otherwise `ErrEditConflict` and the table and item are unchanged |
| Items.ItemModel.Delete | internal/data/items.go:135-162 | id < 1 or an absent id give `ErrNoRecord` and change nothing; otherwise exactly that key is removed |
| Items.ItemModel.GetAll | internal/data/items.go:164-217 | the row loop returns the sorted page of matching rows without images, and the window count of the matching rows (0 when no row is scanned) |
| Items.Collect | internal/data/items.go:167-170 | every collected row satisfies the `WHERE` clause and is stored in the table |
| Items.CollectExact | internal/data/items.go:167-170 | the collected rows are exactly the stored rows in the id range that satisfy the clause, with distinct ids |
| Items.MatchingComplete | internal/data/items.go:167-170 | every stored row the query selects is among the matching rows, and only those |
| Items.ListingSelected | internal/data/items.go:166-172 | every listed item has the requested supplier (or supplier 0 was asked), holds every requested tag, has an empty image and is the stored row; at most `limit` items |
| Items.ListingSorted | internal/data/items.go:171 | the listing is in the requested column order with the ascending id tiebreak |
| Items.PrecedesOrder | internal/data/items.go:171 | `ORDER BY column direction, id ASC` is a strict total order on rows with distinct ids |
| Items.CmpProperties | internal/data/items.go:171 | comparison on one column is antisymmetric and transitive, and rows with equal keys compare alike with any third |
| Items.DirectedProperties | internal/data/items.go:171 | the same holds in either direction |
| Items.LexCmpZero | internal/data/items.go:171 | two texts compare equal exactly when they are equal |
| Items.LexCmpAntisymmetric | internal/data/items.go:171 | swapping the texts negates the comparison |
| Items.LexCmpTransitive | internal/data/items.go:171 | text comparison is transitive |
| Items.InsertSorted | internal/data/items.go:171 | inserting adds exactly one row to the multiset |
| Items.InsertSortedSorted | internal/data/items.go:171 | inserting a row with a new id into a sorted sequence keeps it sorted |
| Items.Sort | internal/data/items.go:171 | sorting permutes the rows |
| Items.SortSorted | internal/data/items.go:171 | rows with distinct ids come out sorted |
| Items.SliceSorted | internal/data/items.go:172 | a `LIMIT`/`OFFSET` window of a sorted sequence is sorted |
| Items.Page | internal/data/items.go:172 | a page has at most `limit` rows, all from the input |
| Items.WithoutImages | internal/data/items.go:166 | each listed row is the scanned row with an empty image file, since `image_file` is not selected |
| Items.WithoutImagesSorted | internal/data/items.go:188-207 | dropping the images keeps the order |
| Price.Unquote | internal/data/price.go:14-17 | success needs surrounding double quotes and yields valid UTF-8, the content itself when it is already valid |
| Price.ReencodeIsValid | internal/data/price.go:14 | the slow path of `strconv.Unquote` always yields valid UTF-8 |
| Price.ReencodeValid | internal/data/price.go:14 | on valid UTF-8 the slow path changes nothing |
| Price.UnquotePlain | internal/data/price.go:14 | a quoted valid text without quote, newline or backslash unquotes to itself |
| Price.UnquoteSymbol | internal/data/price.go:14 | a symbol followed by a plain amount unquotes to its bytes |
| Price.AsciiValid | internal/data/price.go:14 | ASCII text is valid UTF-8 |
| Price.SymbolText | internal/data/price.go:14 | the encoding of a symbol followed by ASCII is valid and holds none of the three special bytes |
| Price.TrimFirstRune | internal/data/price.go:31-34 | the result is a suffix, shorter by 1 to 4 bytes on non-empty input, by one byte on an ill-formed sequence, and empty on empty input |
| Price.TrimEncoded | internal/data/price.go:31-34 | the first UTF-8 encoding is dropped exactly, its RFC 3629 length in bytes |
| Utf8.DecodeRune | internal/data/price.go:32 | `DecodeRuneInString` returns a scalar value and a width of at most 4 bytes, 0 exactly on empty input |
| Utf8.DecodeEncode | internal/data/price.go:32 | decoding the encoding of a scalar value gives it back with its RFC 3629 length |
| Utf8.EncodeDecode | internal/data/price.go:32 | an accepted prefix is exactly the encoding of the decoded value |
| Utf8.ValidStringAppend | internal/data/price.go:14 | an encoding followed by text is valid iff the text is |
| Price.ParseWhole | internal/data/price.go:21-24 | a digit string parses to its value |
| Price.ParseFixed | internal/data/price.go:21-24 | `d.f` parses to the digits of `d` and `f` divided by ten to the length of `f` |
| Price.ParseSplit | internal/data/price.go:21-24 | a numeral without sign or exponent parses to its digits scaled by its fraction length |
| Price.UnmarshalJSON | internal/data/price.go:13-29 | success iff unquoting and parsing both succeed, and the price is then the parsed number; on any failure `ErrInvalidPriceFormat` and the old price |
| Price.UnmarshalSymbolAmount | internal/data/price.go:13-28 | a quoted symbol followed by `d.f` decodes to the value of `d.f`, whatever the symbol |
| Price.DollarExample | internal/data/price.go:13-28 | `"$19.99"` decodes to 19.99 |
| Price.NoSymbolExample | internal/data/price.go:19 | with no symbol the first digit is dropped: `"19.99"` decodes to 9.99 |
| Price.UnquotedRejected | internal/data/price.go:14-17 | `null` and a bare number are rejected and the price is unchanged |
| Responses.ErrorResponse | cmd/api/errors.go:15-22 | the body is an envelope whose only key is "error", holding the message; when the write fails only status 500 goes out |
| Responses.Status | cmd/api/errors.go:24-52 | 500 exactly for server error, not found and method not allowed; 400 bad request; 422 failed validation; 409 edit conflict |
| Responses.RespondShape | cmd/api/errors.go:15-52 | every helper answers 400, 409, 422 or 500 with the one-key envelope of its message, or 500 without a body |
| Responses.NotFoundLooksLikeServerError | cmd/api/errors.go:31-39 | not found and method not allowed put the server-fault status 500 on the wire, not found with "the requested resource could not be found" |
| Responses.IntendedStatus | cmd/api/errors.go:31-39 | the table with 404 and 405 for the router's two fallbacks |
| Responses.IntendedStatusDistinguishes | cmd/api/errors.go:31-39 | with that table only a server fault answers 500 and no two helper kinds share a status |
| Responses.Answer | cmd/api/items.go:58-61 | a failed `writeJSON` is followed by the server-error helper |
| ItemHandlers.FromPayload | cmd/api/items.go:31-40 | the new item has zero id and timestamps and is not archived |
| ItemHandlers.CreateItem | cmd/api/items.go:12-63 | a decode failure gives bad request and a validation failure the field map, and neither calls `Insert`; `Insert` is called iff the item is well formed; success gives 201 with the stamped item and its Location |
| ItemHandlers.CreateInsertsWellFormed | cmd/api/items.go:42-49 | only a well-formed item reaches `Insert` |
| ItemHandlers.ItemLocationNamesId | cmd/api/items.go:55-56 | the Location header is "/v1/items/" followed by a numeral that reads back as the assigned id |
| Decimal.ParseFormat | cmd/api/items.go:56 | every integer written by `%d` reads back as itself |
| ItemHandlers.ShowItem | cmd/api/items.go:65-89 | a rejected id gives not found before any call; `ErrNoRecord` gives not found, another error 500, a row the 200 item envelope |
| ItemHandlers.Merge | cmd/api/items.go:128-162 | the merge never touches id, `created_at` or `updated_at` |
| ItemHandlers.MergeNoChange | cmd/api/items.go:128-162 | for any body, each of the nine fields that is absent keeps its loaded value; the empty body changes nothing |
| ItemHandlers.MergeFull | cmd/api/items.go:128-162 | for any body, each of the nine fields that is present replaces the loaded value; a body with every field yields those values with the loaded identity and timestamps |
| ItemHandlers.MergeIdempotent | cmd/api/items.go:128-162 | merging the same body twice is merging it once |
| ItemHandlers.MergeThen | cmd/api/items.go:128-162 | two merges are one merge of the combined body |
| ItemHandlers.MergeTags | cmd/api/items.go:156-158 | tags change iff the decoded slice is non-nil; an explicit empty array clears them |
| ItemHandlers.UpdateItem | cmd/api/items.go:91-187 | covers every outcome:<br>• a rejected id gives not found before any call;<br>• `Get` comes first: `ErrNoRecord` gives not found, another error 500;<br>• a bad body gives bad request;<br>• a merged item that is not well formed gives 422 with its validation map and no `Update`;<br>• `Update` is called iff the merged item is well formed;<br>• `ErrEditConflict` gives 409, another error 500;<br>• success gives 200 with the merged item and its new `updated_at` |
| ItemHandlers.UpdateUsesLoadedVersion | cmd/api/items.go:99-171 | when `Get` returns the row stored under the requested id (as `ItemModel.Get` does), the update carries that id and the `updated_at` and `created_at` read by `Get` |
| ItemHandlers.DeleteItem | cmd/api/items.go:189-213 | a rejected id gives not found before any call; `ErrNoRecord` gives not found; success gives 200 "successfully deleted" |
| ItemHandlers.RejectedIdTouchesNothing | cmd/api/items.go:67-71 | a parse error or id < 1 gives the same not-found run in show, update and delete, with no repository call |
| ItemHandlers.ListItems | cmd/api/items.go:215-252 | `GetAll` is called iff the validator ends valid, with the name, supplier and tags read and the filters built; failure 500; success 200 with items and metadata |
| ItemHandlers.ListDefaults | cmd/api/items.go:228-234 | an empty query string asks for name "", supplier 0, tags [], page 1, page size 20, sort "id" and the safelist |
| ItemHandlers.SafelistShape | cmd/api/items.go:234 | the safelist holds nine distinct keys and omits "-supplier" |
| ItemHandlers.SafelistOrders | cmd/api/items.go:234 | an order is requestable iff it is not descending supplier |
| ItemHandlers.SafelistIsKeys | cmd/api/items.go:234 | each safelist entry is the key of an order, in place |
| ItemHandlers.SortKeyInjective | cmd/api/items.go:234 | a sort key names exactly one column and direction |
| Middleware.Touched | cmd/api/middleware.go:58-64 | after a request the client is present with `lastSeen = now`; a new one gets limiter (2, 4), an old one keeps its limiter; all other entries are unchanged |
| Middleware.Decision | cmd/api/middleware.go:50-76 | `next` is called iff the limiter is enabled, the address parses and `Allow` says yes; the middleware writes nothing and calls no handler iff the limiter is disabled |
| Middleware.RateLimiter.Step | cmd/api/middleware.go:50-76 | enabled and parsed: the table is touched (also when denied) and denial gives the rate-limit reply; disabled or unparsable: the table is unchanged and a parse failure gives 500 |
| Middleware.Survivors | cmd/api/middleware.go:41-45 | exactly the entries with `now - lastSeen` of at most three minutes are kept, unchanged |
| Middleware.RateLimiter.Sweep | cmd/api/middleware.go:41-45 | deleting while ranging over the table leaves exactly the survivors |
| Middleware.ExpiryBoundary | cmd/api/middleware.go:42 | three minutes of silence is kept, one nanosecond more is removed |
| Middleware.TouchedSurvives | cmd/api/middleware.go:64 | a client touched at `now` survives a sweep at `now`, allowed or not |
| Middleware.SweepIdempotent | cmd/api/middleware.go:41-45 | a second sweep at the same time removes nothing more |
| Middleware.IntendedDecision | cmd/api/middleware.go:51 | with the intended bypass every request is answered or passed on |
| Middleware.DisabledLimiterDropsRequests | cmd/api/middleware.go:75-76 | with the limiter disabled, as written no request goes on, where the intended decision passes each one on |
| Routes.Find | cmd/api/routes.go:16-29 | the first registration with this method whose pattern fits, or none fits |
| Routes.Resolve | cmd/api/routes.go:13-29 | a dispatched route is registered and fits method and path; a fallback means no registration fits |
| Routes.ResolveFallback | cmd/api/routes.go:13-14 | with no fitting route: method not allowed iff some route fits the path, otherwise not found |
| Routes.Unambiguous | cmd/api/routes.go:16-29 | at most one registration fits a method and path |
| Routes.RegisteredOnce | cmd/api/routes.go:16-29 | each (method, pattern) pair is registered once |
| Routes.Permissions | cmd/api/routes.go:16-29 | reading items needs `items:read`, changing them `items:write`; healthcheck, users, tokens and debug need none |
| Routes.ItemRoutesGuarded | cmd/api/routes.go:18-22 | a request dispatched to an item route needs `items:read` for GET and `items:write` otherwise |
| Routes.LayersCompose | cmd/api/routes.go:31 | a composed handler passes exactly its layers, in the written order |
| Routes.Handler | cmd/api/routes.go:31 | metrics outermost, then recover, CORS, rate limit, authenticate, then the router |
| UserHandlers.NewUser | cmd/api/users.go:26-30 | the new user is not activated and carries the name, email and hash |
| UserHandlers.Register | cmd/api/users.go:12-86 | covers every outcome:<br>• a decode failure gives bad request with no call;<br>• hashing comes first, and its failure gives 500;<br>• a user that fails `ValidateUser` gives 422 with its map and no insert;<br>• `Insert` is called iff the user is valid, and only a valid, inactive user is inserted;<br>• `ErrDuplicateEmail` gives 422 on "email", another insert error 500;<br>• a failure of `AddForUser` or `New` gives 500;<br>• success calls `AddForUser(id, "items:read")`, then `New(id, 72h, activation)`, and answers 201 with the user |
| UserHandlers.HashingPrecedesValidation | cmd/api/users.go:32-44 | a hashing failure gives 500 whatever validation would say |
| UserHandlers.RegisterLateFailures | cmd/api/users.go:57-84 | after the insert any failure gives 500, and only a complete run writes the 201 envelope |
| UserHandlers.Activate | cmd/api/users.go:88-142 | covers every outcome:<br>• bad body gives 400;<br>• invalid token text gives 422;<br>• `ErrNoRecord` gives 422 on "token", another lookup error 500;<br>• the update is called iff the token names a user, and carries `activated = true`;<br>• `ErrEditConflict` gives 409, another update error 500;<br>• a failed clean-up gives the server error and then the 200 user |
| UserHandlers.ActivateAnswersTwice | cmd/api/users.go:132-140 | a failed clean-up yields two replies: the server error and then the success envelope |
| UserHandlers.ActivateIntended | cmd/api/users.go:132-136 | makes the same calls, and differs only in stopping after a failed clean-up |
| UserHandlers.ActivateIntendedAnswersOnce | cmd/api/users.go:132-140 | with the intended flow each request gets one reply when writes succeed, and a success reply means the clean-up succeeded |
| TokenHandlers.Login | cmd/api/tokens.go:12-68 | covers every outcome:<br>• a decode failure gives bad request;<br>• the lookup happens iff both validators pass, otherwise 422 with both maps;<br>• `ErrNoRecord` and a mismatch give invalid credentials, another lookup error 500;<br>• `Matches` is called iff the user is found, and its error gives 500;<br>• a token is issued for the user with 24h and authentication scope;<br>• success gives 201 `authentication_token` |
| TokenHandlers.UnknownEmailLikeWrongPassword | cmd/api/tokens.go:35-55 | an unknown email and a wrong password produce the same replies |
| TokenHandlers.MatchErrorIsServerError | cmd/api/tokens.go:46-50 | an error from `Matches` gives 500, never invalid credentials |

## Left out

- Collaborators outside this model are parameters of the flows: the database driver, `readJSON`, `writeJSON`, `readIDParam`, `readString`/`readInt`/`readCSV`, the `validator` package's own code, `ValidateFilters`, `ValidateUser`, `ValidateTokenPlaintext`, `ValidateEmail`, `ValidatePasswordPlaintext`, `UserModel`, `TokenModel`, `PermissionModel` and `Password`.
- `Validator`: follows the documented behaviour of `Check`, `AddError`, `Valid` and `Unique`, because the validator package's code is not part of this model.
- `invalidCredentialsResponse` and `rateLimitExceededResponse` are named as replies only, because they are defined in files outside this model.
- Logging, `errorLog`, the welcome mail sent in the background, and the JSON encoding of the envelopes are I/O.
- Items.ItemModel: its methods never fail on database or connection errors. The handlers take such errors as `ErrInternal` outcomes.
- Items.ItemModel.Insert: relies on the schema default `archived = false`. The schema is not part of this model.
- Items.LexCmp: orders texts byte by byte. PostgreSQL's collation for `ORDER BY name` is not modelled.
- Items.Selected: the full-text match `to_tsvector('simple', name) @@ plainto_tsquery('simple', text)` is an abstract predicate.
- Items.ItemModel.GetAll: takes the order, the limit and the offset directly. `Filters.sortColumn`, `sortDirection`, `limit` and `offset` live in a file outside this model. `ItemHandlers.SortKey` relates sort strings to orders.
- ItemHandlers.ListItems: `validateFilters` may be any function of the validator and the filters. The real `ValidateFilters` only adds keys through `Check`, so it cannot clear what the readers recorded. The contract holds for every such function, so it holds for the real one.
- `calculateMetadata` is not part of this model. The metadata value carries its three inputs.
- Items.Item: ids, suppliers and currencies are unbounded integers, with no `int64` overflow. Timestamps are integers. Prices are exact reals, not `float64`.
- Price.ParseNumber: handles sign, digits, one decimal point and an exponent exactly. It rejects what `strconv.ParseFloat` also accepts: `inf`, `nan`, hexadecimal floats, and underscores between digits (e.g. `1_000.50`), so `"$1_000.50"` is refused with `ErrInvalidPriceFormat` where the service would decode 1000.5. Rounding to `float64` and range errors are not modelled.
- Price.Unquote: rejects every backslash escape, most of which `strconv.Unquote` would decode. Back-quoted and single-quoted Go literals are also rejected.
- Middleware: the mutex, the janitor goroutine and its one-minute sleep are concurrency, so the step and the sweep are sequential methods. The sweep reads one clock value `now` for the whole pass, where the janitor calls `time.Since` once per entry.
- Middleware.Limiter: records only the bucket's rate and burst. The token bucket of golang.org/x/time/rate, with its float arithmetic, and its `Allow` are foreign; `Allow`'s answer is a parameter of the step.
- `recoverPanic`, `metrics`, `enableCORS`, `authenticate` and `requirePermission` are named as layers and labels only. Deferred `recover` and their bodies (outside this model) are not modelled.
- Routes.Resolve: paths are given already split into segments. The router's automatic OPTIONS answers, trailing-slash and case redirects, and catch-all parameters are not modelled.
- `cmd/api/main.go` (configuration, database pool, expvar) and `cmd/api/handlers.go` (the constant healthcheck envelope) are plumbing.
- UserHandlers.Register: the user's creation time and version, which `UserModel.Insert` fills in, are not modelled. The user carries only the id it is given.

## Findings

| source | as written | input that shows it | evidently intended | confidence | as-written member | corrected member |
|---|---|---|---|---|---|---|
| cmd/api/errors.go:31-39 | `notFoundResponse` and `methodNotAllowedResponse` pass `http.StatusInternalServerError` | any unknown path, or DELETE on `/v1/users`, answers 500 like a server fault | 404 and 405 | not executed | Responses.NotFoundLooksLikeServerError | Responses.IntendedStatus |
| cmd/api/users.go:132-136 | no `return` after `serverErrorResponse` when `DeleteAllForUser` fails | a valid activation token whose clean-up fails: the error reply is followed by the 200 user envelope | return after the error reply | not executed | UserHandlers.ActivateAnswersTwice | UserHandlers.ActivateIntended |
| cmd/api/middleware.go:51 | no else-branch when the limiter is disabled | any request with the limiter disabled: the middleware writes nothing, net/http sends an empty 200, and no handler runs | call `next(w, r)` | not executed | Middleware.DisabledLimiterDropsRequests | Middleware.IntendedDecision |

The handler flows and `RateLimiter.Step` keep the code as written, since
they model the service as it behaves. Each corrected definition is proved to
agree with the as-written one wherever the defect does not arise:
- `IntendedStatus` agrees with `Status` on every other helper;
- `ActivateIntended` agrees with `Activate` when the clean-up succeeds;
- `IntendedDecision` agrees with `Decision` when the limiter is enabled.
