# Real-Time Poll Rooms: a Dafny model of the poll lifecycle

The service lets anyone create a poll (a question with 2 to 10 options) and share a link to it.
Visitors vote once per poll. A vote is refused when the same network address or the same
browser token has already voted on that poll. Every accepted vote is pushed to the clients
watching the poll through a Socket.IO room named `poll:<id>`.

This project models that core as pure functions over immutable data:

- **the poll document and its schema**: required, trimmed, length-bounded question and option
  texts; non-negative vote counters; at least two options; empty voter lists by default;
- **the request helpers**:
  - option normalisation: trim, drop blanks, drop case-insensitive duplicates, keep first
    occurrences in order;
  - HTML escaping;
  - the vote total and the broadcast payload;
  - client-address extraction from `x-forwarded-for`;
  - share-URL base trimming;
- **`POST /poll`**: the ordered validation, the schema-backed `Poll.create`, and the share URL;
- **`POST /poll/:id/vote`**: the ordered validation, the conditional atomic `findOneAndUpdate`
  that both guards against repeat voters and records the vote, the 404/409 classification when
  the update matches nothing, and the `poll:update` broadcast;
- **the `poll:join` socket handler**: the room map;
- **the whole service as a state machine** (`Lifecycle`): a store of polls, a room map, and a
  run of create / vote / join events from the empty state.

The store is a `map<PollId, Poll>`, and each route is a function from the store and request to
a response and a new store. The properties are proved in two places. `ensures` clauses state
what a single call does. Lemmas state how calls relate: round trips, idempotence, reference
definitions, and invariants over whole runs.

Properties proved about whole runs:

- the ledger invariant `totalVotes == |voterIps| == |voterTokens|` holds for every poll, with no
  repeated address or token;
- every poll's tally equals the number of accepted votes for it in the run;
- no two accepted votes on a poll share an address or a token;
- a socket that joined with a poll id receives every later accepted vote sent with that same id
  string, and a socket receives a broadcast only if it joined with that string earlier. A vote
  sent with another spelling of the id is counted, but it is broadcast to a different room
  (`Lifecycle.OtherSpellingMissesViewers`).

Modules (one file each):
- `Wrappers`: `Option`.
- `JsString`: `String.prototype.trim`.
- `PollSchema`: the Mongoose schema and `Poll.create`.
- `Tally`: `totalVotes`, `pollPayload`, and the `$inc` update.
- `HtmlEscape`: `escapeHtml`.
- `ClientIp`: `getClientIp`.
- `ShareUrl`: `stripTrailingSlashes`.
- `OptionList`: `normalizeOptions`.
- `CreateRoute`: `POST /poll`.
- `VoteRoute`: `POST /poll/:id/vote`.
- `Rooms`: `poll:join` and room membership.
- `Ledger`: the store invariant.
- `Lifecycle`: runs of events.

Environment-dependent operations are parameters of the model:
- `mongoose.isValidObjectId`, and Mongoose's cast of an id string to the `_id` it denotes, are
  the two halves of `ObjectIds(valid, cast)`;
- Unicode `toLowerCase` is `lower: string -> string`;
- the `_id` Mongoose generates for a new document is `newId`;
- the configured or request-derived base URL is `baseUrl`.

Body coercions are applied before the model sees a request:
- `String(x || "")` yields the string fields;
- `Number(optionIndex)` followed by `Number.isInteger` yields an `Option<int>`;
- `Array.isArray(options)` yields an `Option<seq<string>>`.

## Model

| member | source | states |
|---|---|---|
| JsString.TrimStart | src/routes/pollRoutes.js:25 | The start-trimmed string is a suffix of the input, every dropped character is ECMAScript whitespace, and it does not start with whitespace. |
| JsString.TrimEnd | src/routes/pollRoutes.js:25 | The end-trimmed string is a prefix of the input, every dropped character is whitespace, and it does not end with whitespace. |
| JsString.Trim | src/routes/pollRoutes.js:25 | `trim()` yields a string with no whitespace at either end, no longer than its input. |
| JsString.TrimSplits | src/routes/pollRoutes.js:25 | Every string is leading whitespace + its trim + trailing whitespace, so `trim` only removes whitespace at the ends. |
| JsString.TrimUnique | src/routes/pollRoutes.js:25 | Whatever whitespace surrounds a trimmed core, `trim` returns exactly that core. |
| JsString.TrimIdempotent | src/routes/pollRoutes.js:25 | Trimming twice equals trimming once. |
| PollSchema.Create | src/models/Poll.js:23-45 | `Poll.create` succeeds exactly when the document after the `trim` setters and the empty-list defaults meets the schema; it then stores that document: the trimmed question, each option's text trimmed with its counter kept, and empty `voterIps`/`voterTokens`. |
| PollSchema.CreateAcceptsValid | src/models/Poll.js:5-37 | A document that already meets the schema is stored unchanged: the `trim` setters and default values alter nothing. |
| Tally.TotalVotes | src/routes/pollRoutes.js:51-53 | The sum of the counters is non-negative when every counter is, and 0 when every counter is 0. |
| Tally.TotalVotesAppend | src/routes/pollRoutes.js:51-53 | The reduce is additive over concatenation. |
| Tally.TotalVotesIncrement | src/routes/pollRoutes.js:510-519 | `$inc` on `options.<i>.votes` raises the total by exactly 1, raises option `i` by 1, and leaves its text and every other option unchanged. |
| Tally.PollPayload | src/routes/pollRoutes.js:65-71 | The payload carries the poll's id, question and options, and `totalVotes` is the sum of the option counters, non-negative when every counter is. |
| HtmlEscape.EscapeHtml | src/routes/pollRoutes.js:42-49 | `escapeHtml` equals escaping each character on its own, decoding its output recovers the input, and the output has no raw `<`, `>`, `"` or `'`. |
| HtmlEscape.EscapeHtmlIsPerChar | src/routes/pollRoutes.js:42-49 | The five chained global replacements, `&` first, equal escaping each character on its own, so nothing is escaped twice. |
| HtmlEscape.EscapeHtmlAppend | src/routes/pollRoutes.js:42-49 | Escaping distributes over concatenation. |
| HtmlEscape.EscapeHtmlChar | src/routes/pollRoutes.js:42-49 | A single character is escaped to its entity or left as is. |
| HtmlEscape.EscapeHtmlRoundTrip | src/routes/pollRoutes.js:42-49 | Decoding the five entities recovers the original string, so escaping loses nothing. |
| HtmlEscape.EscapeHtmlNoMarkup | src/routes/pollRoutes.js:42-49 | The output contains no raw `<`, `>`, `"` or `'`; with the round trip, every `&` in the input survives as an entity. |
| ClientIp.FirstSegment | src/routes/pollRoutes.js:59 | `split(",")[0]` is a comma-free prefix that ends at the first comma or at the end of the header. |
| ClientIp.GetClientIp | src/routes/pollRoutes.js:55-63 | A forwarded address is trimmed and has no comma; otherwise the address is non-empty. |
| ClientIp.ForwardedFirstEntry | src/routes/pollRoutes.js:58-59 | With a non-blank `x-forwarded-for` header, the address is the trimmed first comma-separated entry. |
| ClientIp.FallbackChain | src/routes/pollRoutes.js:62 | Without a usable header, the address is `req.ip`, else `socket.remoteAddress`, else `"unknown"`. |
| ClientIp.BlankFirstEntry | src/routes/pollRoutes.js:58-59 | A header whose first entry is blank but whose whole value is not gives the empty address. |
| ShareUrl.StripTrailingSlashes | src/routes/pollRoutes.js:74-76 | The result is a prefix of the input, only `/` characters are removed, and it does not end in `/`. |
| ShareUrl.StripIdempotent | src/routes/pollRoutes.js:74-76 | Stripping twice equals stripping once. |
| ShareUrl.StripUnique | src/routes/pollRoutes.js:74-76 | A base that does not end in `/`, followed by any run of slashes, strips back to exactly that base. |
| ShareUrl.PollShareUrl | src/routes/pollRoutes.js:444-450 | The share link ends in `/poll/<id>`; what precedes it is a prefix of the configured base that does not end in `/`, and only slashes of the base are dropped. |
| ShareUrl.ShareUrlIgnoresTrailingSlashes | src/routes/pollRoutes.js:444-450 | A base configured with any number of trailing slashes gives the same link as the bare base. |
| OptionList.LoopComputesFirstOccurrences | src/routes/pollRoutes.js:21-37 | The loop with its `seen` set of lowercase keys computes the reference definition: the non-blank trimmed texts whose key has not occurred earlier, in input order. |
| OptionList.FirstOccurrencesProperties | src/routes/pollRoutes.js:24-37 | The kept texts are non-blank input texts with pairwise distinct lowercase keys, and every key seen among the non-blank inputs is kept. |
| OptionList.NormalizeOptions | src/routes/pollRoutes.js:16-40 | A non-array gives `[]`. Otherwise the texts are the first occurrences, in input order, of each lowercase key among the trimmed non-blank inputs, and every counter is 0. |
| OptionList.NormalizeOptionsDistinct | src/routes/pollRoutes.js:16-40 | Every normalized option text is non-empty and trimmed, and no two share a lowercase key. |
| OptionList.NormalizeOptionsComplete | src/routes/pollRoutes.js:24-36 | Every non-blank input's lowercase key appears among the normalized options. |
| CreateRoute.CreatePoll | src/routes/pollRoutes.js:418-451 | The route checks, in order: question required, question at most 300, at least 2 options, at most 10 options, each option at most 120. Any rejection leaves the store unchanged. Creation succeeds iff all checks pass and the id is fresh. The new poll is schema-valid with 2..10 zero-vote options, no voters, and the share URL. |
| CreateRoute.CreateStatusMeaning | src/app.js:20-31 | `POST /poll` answers 201 exactly when the new id was free and is now stored, 400 exactly when one of the route's checks fails, and 500 exactly when the checks pass but the id is taken. |
| CreateRoute.AdmittedIsValid | src/routes/pollRoutes.js:443 | Whatever the route admits passes the schema and is stored unchanged, so the ValidationError branch is unreachable. |
| CreateRoute.CreatePreservesValidStore | src/routes/pollRoutes.js:443 | Creating a poll keeps every stored poll schema-valid and ledger-consistent. |
| CreateRoute.CreateKeepsOthers | src/routes/pollRoutes.js:443 | A creation attempt, accepted or not, leaves every existing poll as it was; the only poll it can add is the new id, with no voters. |
| CreateRoute.CreateStoreShape | src/routes/pollRoutes.js:443 | Creation keeps every existing poll unchanged and adds at most the new id, with no voters. |
| Rooms.Join | src/server.js:27-33 | A non-string or empty id leaves the room map unchanged. Otherwise exactly room `poll:<id>` is added to the joining socket's rooms, and no other socket changes. |
| Rooms.RoomName | src/server.js:32 | A poll's room name is `poll:` followed by the id, character for character. |
| Rooms.RoomNameInjective | src/server.js:32 | Distinct poll ids name distinct rooms. |
| Rooms.JoinMembership | src/server.js:32 | After joining poll `id`, the socket is in room `poll:<id>`; it is in any other poll's room only if it was before, and other sockets are unaffected. |
| Rooms.JoinIdempotent | src/server.js:32 | Joining the same room twice equals joining it once. |
| Ledger.AppendFresh | src/routes/pollRoutes.js:520-523 | `$addToSet` of a value not yet present keeps a list free of duplicates. |
| Ledger.ValidStoreUpdate | src/models/Poll.js:23-45 | Replacing one poll with a valid, consistent poll keeps the store invariant. |
| Ledger.FreshPollConsistent | src/models/Poll.js:38-45 | A poll with zero counters and the default empty voter lists satisfies `totalVotes == |voterIps| == |voterTokens|`. |
| VoteRoute.AddToSet | src/routes/pollRoutes.js:520-523 | `$addToSet` leaves a list that already holds the value unchanged, and otherwise appends the value at the end. |
| VoteRoute.ApplyVote | src/routes/pollRoutes.js:518-524 | The update raises the tally by exactly 1, keeps the question and the number of options, records both identities, and appends each one when neither was recorded. |
| VoteRoute.PreCheck | src/routes/pollRoutes.js:484-508 | Validation passes exactly when the id is a valid ObjectId, the index is an integer within the stored poll's options, and the trimmed token has 1 to 128 characters; a 404 means the poll is not stored. |
| VoteRoute.VoteStatusMeaning | src/routes/pollRoutes.js:484-546 | A vote answers 200 exactly when the store changed, 409 exactly when validation passed but the address or the token had already voted on the poll, and 404 exactly when the earlier checks passed but no poll has the `_id` the segment casts to. |
| VoteRoute.FindOneAndUpdate | src/routes/pollRoutes.js:512-526 | The update matches iff the poll exists and neither the address nor the token is recorded on it. A match raises exactly the chosen counter, appends both identities and changes nothing else. A miss changes nothing. |
| VoteRoute.Vote | src/routes/pollRoutes.js:477-550 | Rejections come in order: invalid id, non-integer index, empty token, token over 128, missing poll, index out of range. Past validation, the vote is accepted iff neither identity has voted, otherwise 409. A rejection leaves the store unchanged and emits nothing. An accepted vote raises one counter by 1 and the total by 1, keeps every other option and the question, records both identities, and emits the response payload to the room named after the path segment as sent. The store is searched by the `_id` the segment casts to, and the payload carries that `_id`. |
| VoteRoute.ApplyVotePreserves | src/routes/pollRoutes.js:518-525 | An update with fresh identities keeps the poll schema-valid (counters stay at least 0) and ledger-consistent. |
| VoteRoute.VoteStoreShape | src/routes/pollRoutes.js:512-526 | After a vote attempt the store is unchanged, or equals the old store with the update applied to the voted poll. |
| VoteRoute.VotePreservesValidStore | src/routes/pollRoutes.js:512-526 | Every vote attempt keeps the store invariant: schema-valid, and `totalVotes == |voterIps| == |voterTokens|` with no repeated identity. |
| VoteRoute.SameIdentityVotesOnce | src/routes/pollRoutes.js:515-516 | After an accepted vote, a later vote on the same poll that reuses the address or the token is refused. |
| VoteRoute.VoteAccepted | src/routes/pollRoutes.js:512-526 | A request that passes validation with two new identities is accepted, and the store changes by exactly the update. |
| VoteRoute.VoteRefused | src/routes/pollRoutes.js:528-537 | A request that passes validation but reuses an identity gets 409, with the store unchanged and no emit. |
| VoteRoute.TwoVotersThenRetry | src/routes/pollRoutes.js:512-537 | On a fresh poll with options A and B, two distinct identities voting for A give A:2, B:0 and a total of 2. A retry by the first identity matches nothing, is answered 409, and leaves the tally unchanged. |
| Lifecycle.AcceptedStepWasFresh | src/routes/pollRoutes.js:512-526 | Every accepted vote came from a vote event whose poll existed and whose two identities were both new. |
| Lifecycle.StepPreservesInvariant | src/routes/pollRoutes.js:418-550 | Every create, vote or join event keeps the run invariant: the store invariant holds, each poll's address list counts its accepted votes, and every accepted identity is recorded. |
| Lifecycle.RunKeepsInvariant | src/routes/pollRoutes.js:512-526 | After any run from the empty state, the invariant holds, and each poll's total equals its number of accepted votes and its number of tokens. |
| Lifecycle.ExactlyOncePerIdentity | src/routes/pollRoutes.js:515-516 | In any run, two accepted votes on the same poll have different addresses and different tokens. |
| Lifecycle.VoteBroadcast | src/routes/pollRoutes.js:539-546 | A broadcast happens iff the vote is accepted. It carries the response body as `poll:update`, with `totalVotes` equal to the sum of the counters. A socket receives it iff it is in the room `poll:<path segment>`. |
| Lifecycle.StepKeepsRooms | src/server.js:27-33 | No event removes a socket from a room. |
| Lifecycle.RunKeepsRooms | src/server.js:27-33 | A socket's rooms only grow along a run. |
| Lifecycle.JoinPersists | src/server.js:32 | Once a socket has joined a poll's room, it is still in it at every later point of the run. |
| Lifecycle.JoinedSocketReceivesUpdates | src/routes/pollRoutes.js:539-544 | A socket that joined with the string `id` receives the broadcast of every later accepted vote whose path segment is that same string. |
| Lifecycle.RoomsFromJoins | src/server.js:27-33 | Every room a socket is in after a run was entered by an earlier `poll:join` of that socket with a non-empty string naming it. |
| Lifecycle.OnlyJoinedSocketsReceive | src/routes/pollRoutes.js:539-544 | A socket that receives the broadcast of a vote sent with path segment `id` joined with exactly `id` earlier in the run, so nothing emitted for one poll reaches a socket that joined only others. |
| Lifecycle.OtherSpellingMissesViewers | src/routes/pollRoutes.js:539-544 | An accepted vote whose path segment differs from the stored `_id` it casts to is not delivered to a socket that joined only the room of that `_id`. |

## Behaviour of the code worth knowing

The model follows the code in each case.

- **Client address.** One might expect the address to be the trimmed first entry of
  `x-forwarded-for` whenever that entry is non-blank. The code instead tests the whole header
  after trimming, then takes the first entry. A header such as `" ,10.0.0.1"` therefore yields
  the empty address, not a fallback (`ClientIp.BlankFirstEntry`). All clients that send such a
  header share that one address identity.
  - Without the header, the code falls back to `req.ip`, then `socket.remoteAddress`, then
    `"unknown"` (`ClientIp.FallbackChain`).
- **Option count.** A poll keeps 2 to 10 options for its lifetime only when it was created
  through `POST /poll`. The schema enforces only the lower bound. The upper bound of 10 comes
  from the create route (`CreateRoute.CreatePoll`), and it lasts because no update changes the
  number of options.
- **Id spelling.** The vote route looks the poll up, updates it and checks its existence by the
  `_id` the path segment casts to. Hex digits are case-insensitive, so an upper-case spelling of
  an id finds the poll, and the vote is counted. The broadcast, however, goes to the room
  `poll:<segment as sent>`. Viewers who joined with the stored lower-case `_id` are not in that
  room and do not receive it (`Lifecycle.OtherSpellingMissesViewers`). The response and the
  payload carry the stored `_id`.

## Left out

- Rendering: the poll page, its client script and its floating-point percentages are not
  modelled. That covers `renderPollPage` and `GET /poll/:id`; only `escapeHtml` is.
- Concurrency: the store is sequential.
  - The pre-read that feeds the 404 and range checks sees the same store as the conditional
    update.
  - The update's own 404 branch (the poll vanished between the two calls) is still modelled by
    `VoteRoute.ClassifyFailure` and `VoteRoute.FindOneAndUpdate`.
  - Interleavings and MongoDB atomicity are assumed, not proved.
- Socket.IO transport: delivery, disconnects and the socket's own default room are not
  modelled, only the room map.
  - The `io` lookup is taken to succeed, so an accepted vote always emits.
- Environment functions are parameters:
  - `mongoose.isValidObjectId`, Unicode `toLowerCase`, and the `_id` Mongoose generates;
  - the `BASE_URL` variable and the request host, beyond `stripTrailingSlashes` and the
    `/poll/<id>` suffix;
  - `Number(...)` and `Number.isInteger`, which arrive already decoded.
- Error handling in `src/app.js`: only the mapping of a ValidationError to 400 and of other
  errors to 500 is modelled, in `CreateRoute.CreateStatus`. JSON parse errors and unknown
  routes are not.
- Store failures: a store call that throws or times out reaches `next(error)`
  (`src/routes/pollRoutes.js:547-549`) and becomes a 500 in `src/app.js`. The model's store calls
  always complete, so neither that 500 nor whether a vote was applied before the failure is
  modelled. Only the duplicate `_id` insert is modelled as a store error.
- The duplicate `_id` insert: `CreateRoute.CreatePoll` answers `DuplicateId` (500) and leaves
  the store unchanged. Mongoose's id generation and the exact error text are not modelled.
- `src/config/db.js`, server start-up and `listen`: these are I/O and not part of the model.
- Timestamps (`createdAt` and `updatedAt`) are not modelled.
- Update validators (`runValidators: true`) are not evaluated on the update. Instead,
  `VoteRoute.ApplyVotePreserves` proves that the update always keeps the poll schema-valid, so
  the validators never fire.
- Lengths: JavaScript measures `length` in UTF-16 code units, but the model counts Unicode code
  points. A text with characters outside the Basic Multilingual Plane can pass the 300, 120 and
  128 limits in the model yet fail them in the service.
- Tally.TotalVotes: the sum is over unbounded integers. JavaScript numbers lose precision past
  2^53 votes.
- VoteRoute.Vote: the options are taken exactly as stored. Polls written to the database by
  other means, for example with more than 10 options, are covered only by the schema's bound
  of at least 2. The 10-option cap holds for polls created through `POST /poll`, because votes
  never change the number of options. The invariant `Ledger.ValidStore` carries only the
  schema's at-least-2 bound, not the route's cap of 10.
