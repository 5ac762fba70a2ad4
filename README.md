# Mock server matching and registration engine, modelled in Dafny

This project models the core of a small HTTP mock server, `server.js`. The
server keeps a table of mock definitions. Each definition pairs a request
matcher (verb, url, optional required headers) with a response template
(status, headers, body). Definitions come in at startup from mapping files
and at runtime through a registration endpoint. Every other request that
reaches the catch-all handler is answered from the table.

The model has seven modules:

- `MockTypes` (mock_types.dfy): the mock definition, the request
  descriptor, and `ValidMock`. `ValidMock` is the shape the repository's
  tests expect of mapping files. The server never enforces it, so nothing
  here requires it. The JavaScript field `method` is called `verb`,
  because `method` is a Dafny keyword.
- `HeaderMatch` (header_match.dfy): `headersMatch`. It is a method with the
  source's loop and early exit, proved equal to the predicate
  `HeadersSatisfied`, which has its own lemmas.
- `MockKey` (mock_key.dfy): `generateMockKey`, with a JSON-like,
  order-keeping header serializer that stands in for `JSON.stringify`.
- `MockStore` (mock_store.dfy): the `mockDefinitions` `Map`, as a class
  whose field is a sequence of (key, mock) pairs with distinct keys.
  `Map.set` is the pure function `MapSet`. It replaces an existing key in
  place and appends a new key. `Insert` and `Load` are the two places the
  source calls `set`. The class invariant also says each entry sits under
  the key derived from its own mock.
- `Dispatcher` (dispatch.dfy): the `app.all('*')` loop, with its `break`
  on the first hit. It is proved against `Resolve`, a first-match function
  over the table.
- `Server` (server.dfy): the registration handler, the catch-all handler,
  and the rendering rules. Status is `response.status || 200`, headers are
  `response.headers || {}`, and the body is passed through. The 404
  diagnostic carries the error text and echoes the request.
- `Scenarios` (scenarios.dfy): the repository's server tests, plus
  header-gating scenarios, each starting from a fresh, empty table.

Some behaviour of the code is easy to misread. The model follows the code
in each case:

- A header object is appended to the key even when it is empty `{}`,
  because an empty object is truthy in JavaScript. A mock with `{}` therefore gets
  a different key from one with no headers, yet both match every request to
  their route (`HeadersExtendKey`, `EmptyRequirementAlwaysHolds`).
- The serialization is not canonical: the same headers in another order
  give another key (`KeyIsOrderSensitive`). Keys are plain concatenations,
  so two semantically different mocks can share a key (`KeysCanCollide`).
- A required header whose request value is the empty string counts as
  missing, because the condition is `!headerValue`. A requirement on the empty
  value can never be met (`EmptyRequiredValueNeverHolds`).
- Insertion order is the only priority. A header-less mock shadows every
  later entry for its route, including a header-gated variant that the
  request satisfies (`HeaderlessMockShadowsLaterEntries`,
  `FallbackThenGated`). The source comment above the loop speaks of
  trying header matches first, but the loop returns the first hit in table
  order.
- Nothing is validated before insertion.
- The store has no synchronisation.
- A status of `0` is treated like an absent status and becomes 200.

## Model

| member | source | states |
|---|---|---|
| HeaderMatch.Lower | server.js:23 | the lower-cased name has the same length, no capital letter, and every non-capital character kept in place |
| HeaderMatch.LowerIdempotent | server.js:23 | lower-casing an already lower-cased name changes nothing |
| HeaderMatch.HeadersSatisfied | server.js:19-30 | when the requirement holds, every required name is present under its lower-cased form with exactly the required value |
| HeaderMatch.HeadersMatch | server.js:19-30 | the loop returns true exactly when `HeadersSatisfied` holds; on false, some required pair fails |
| HeaderMatch.AbsentRequirementAlwaysHolds | server.js:20 | a mock without required headers accepts any request headers |
| HeaderMatch.EmptyRequirementAlwaysHolds | server.js:20-22 | an empty header object also accepts every request (the loop runs zero times) |
| HeaderMatch.OneFailingPairRejects | server.js:23-26 | a required header that is missing, empty or different under its lower-cased name rejects the whole requirement |
| HeaderMatch.EmptyRequiredValueNeverHolds | server.js:24 | a requirement asking for the empty value is never satisfied |
| HeaderMatch.OnlyRequiredNamesMatter | server.js:22-23 | two requests agreeing on the required (lower-cased) names get the same verdict |
| HeaderMatch.ExtraHeadersIgnored | server.js:22-29 | adding request headers never turns a match into a mismatch |
| HeaderMatch.LowerIgnoresCase | server.js:23 | two names differing only in the case of ASCII letters lower to the same string |
| HeaderMatch.NameCaseIgnored | server.js:23 | respelling a required name with other capitals does not change the verdict |
| HeaderMatch.ValueComparedExactly | server.js:23-24 | `X-API-Key` is found as `x-api-key`, while a value differing only in case fails |
| HeaderMatch.SatisfiedConcat | server.js:22-29 | a requirement split in two parts holds exactly when both parts hold |
| MockKey.GenerateKey | server.js:33-42 | the key starts with `verb_url`, and is exactly that long precisely when the mock has no header object |
| MockKey.SerializeHeaders | server.js:38 | the header serialization is never empty and is delimited by braces |
| MockKey.KeyWithoutHeaders | server.js:34 | a mock without a header object is keyed `verb_url` |
| MockKey.HeadersExtendKey | server.js:37-39 | a header object, even empty, extends the header-less key by `_` and its serialization: strictly longer, a proper extension, different |
| MockKey.HeaderPresenceSeparatesKeys | server.js:34-39 | same route with and without a header object gives two different keys |
| MockKey.DistinctSerializationsSeparateKeys | server.js:37-39 | same route with differently serialized header objects gives different keys |
| MockKey.SingleHeaderValuesSerializeApart | server.js:38 | one header with two different values serializes differently |
| MockKey.ResponseDoesNotAffectKey | server.js:33-42 | the key depends only on the request matcher, so mocks differing only in response collide |
| MockKey.TestMockKey | tests/server.test.js:70 | the test's mock is stored under `GET_/api/test` |
| MockKey.KeyIsOrderSensitive | server.js:38 | the same two headers in the other order give another key |
| MockKey.KeysCanCollide | server.js:34-39 | `GET /a_{}` without headers and `GET /a` with `{}` have different matchers but one key |
| MockStore.Lookup | server.js:16 | the value the Map holds for a key is present exactly when some entry has the key, and the value is stored with that key |
| MockStore.MapSet | server.js:65-66 | `Map.set` puts the pair in the table; the length stays the same for a present key and grows by one for a new key |
| MockStore.LoadOne | server.js:48-57 | a loadable file's mock is what its key looks up afterwards; any other file leaves the table unchanged; at most one entry is added |
| MockStore.LoadAll | server.js:47-59 | loading never shrinks the table and adds at most one entry per file |
| MockStore.IndexOf | server.js:16 | the found position holds the key and no earlier entry does; none is found exactly when no entry has the key |
| MockStore.SetThenLookup | server.js:65-66 | after `set`, the key maps to the new mock |
| MockStore.SetKeepsOthers | server.js:65-66 | after `set`, every other key keeps its value or its absence |
| MockStore.SetShape | server.js:66 | `set` on a present key replaces that entry in place (same length, key order and other entries); on a new key it appends |
| MockStore.OverwriteLaw | server.js:65-66 | setting a key twice equals setting it once to the second mock: last write wins wholesale, at the first write's position |
| MockStore.SetKeepsKeysPresent | server.js:53 | `set` never removes a key |
| MockStore.OverwriteLeavesOneEntry | server.js:65-66 | registering two mocks with one key on a valid table leaves the second mock as the only entry with that key |
| MockStore.SetPreservesInvariant | server.js:52-53 | storing a mock under its own key keeps keys distinct and each entry under its mock's key |
| MockStore.SkippedFileChangesNothing | server.js:48-57 | a mapping file that is not `.json` or does not parse leaves the table unchanged |
| MockStore.LoadedFilePresent | server.js:47-59 | every loadable file's key is in the table after loading, whatever fails later |
| MockStore.LastLoadWins | server.js:47-59 | a loaded file's mock is the one stored under its key unless a later loadable file has that key |
| MockStore.LoadPreservesInvariant | server.js:47-59 | loading keeps the table's invariant |
| MockStore.Store.constructor | server.js:16 | the table starts empty and valid |
| MockStore.Store.Insert | server.js:65-66 | the new table is `MapSet` of the old one at the mock's key, and stays valid |
| MockStore.Store.Clear | tests/server.test.js:7-9 | the table becomes empty |
| MockStore.Store.Has | tests/server.test.js:70 | true exactly when some entry has the key |
| MockStore.Store.Load | server.js:45-60 | the new table is the old one with every loadable file inserted in order (`LoadAll`), and stays valid |
| Dispatcher.Matches | server.js:77-91 | a match requires the route to match; a mock without a header object matches on route alone |
| Dispatcher.FirstMatchFrom | server.js:76-93 | the scan's index, when found, lies in the table and holds a matching mock |
| Dispatcher.Resolve | server.js:76-104 | a found mock is a matching entry of the table; not-found echoes the request's verb, path and headers |
| Dispatcher.FirstMatchFromSpec | server.js:76-93 | the scan's index is a matching entry with no match before it; none means no entry matches |
| Dispatcher.ResolveIsFirstMatch | server.js:76-104 | the answer is the earliest matching mock; it is not-found, echoing verb, path and headers, exactly when nothing matches |
| Dispatcher.ResolvePicksFirstMatch | server.js:80-92 | a matching entry with no match before it is the answer, so failed gated entries before it do not stop the scan |
| Dispatcher.NonMatchingPrefixSkipped | server.js:76-93 | non-matching entries at the front of the table do not change the answer |
| Dispatcher.HeaderlessMockShadowsLaterEntries | server.js:87-91 | once a header-less mock for the route is reached, the answer is that mock or an earlier one |
| Dispatcher.NoRouteMeansNotFound | server.js:95-103 | without a mock for the request's verb and path, the answer is not-found |
| Dispatcher.RegisteredMockAnswers | server.js:63-93 | a matching mock registered when nothing matched is what answers afterwards, whether appended or replaced in place |
| Dispatcher.Dispatch | server.js:71-104 | the loop returns `Resolve` of the table: the first matching mock in order, or not-found exactly when no entry matches |
| Server.StatusOrDefault | server.js:108 | the status is never 0; a present non-zero status is kept, and an absent status or `0` becomes 200 |
| Server.RenderMock | server.js:107-110 | the reply's status is never 0, its headers are the template's or none, and its body is the template's unchanged |
| Server.RenderOutcome | server.js:95-110 | not-found gives exactly the 404 reply with the fixed error text and the request's verb, path and headers; a found mock gives exactly `RenderMock` of its template |
| Server.RenderedResponseDefaults | server.js:107-110 | status is the template's when present and non-zero, otherwise 200 (never 0); headers default to none; the body passes through |
| Server.ValidMockKeepsStatus | tests/mocks.test.js:29-42 | a mock of the mapping-file shape the repository's tests expect is rendered with its own status, in [100, 599] |
| Server.NotFoundRendering | server.js:95-103 | no match renders 404 with "No matching mock definition found" and the request's verb, path and headers |
| Server.Register | server.js:63-68 | registration stores the mock under its key (`MapSet`) and answers 201 "Mock created" |
| Server.HandleRequest | server.js:71-111 | the reply is the 404 diagnostic exactly when no mock matches, otherwise the rendering of a matching stored mock |
| Scenarios.RegisterTestMock | tests/server.test.js:45-71 | registering answers 201 and the table then has `GET_/api/test` |
| Scenarios.UndefinedRoute | tests/server.test.js:75-81 | an unregistered path gets 404 with the fixed error text and its path echoed |
| Scenarios.RegisteredRoute | tests/server.test.js:83-115 | a registered route is served with its status 200, its two headers and its body |
| Scenarios.CustomStatus | tests/server.test.js:117-143 | a 403 template is served as 403 with its body |
| Scenarios.ProtectedRejectsBare | server.js:82-86 | a route gated on `Authorization` rejects a request without the header |
| Scenarios.ProtectedAcceptsAuthorized | server.js:82-86 | the same route accepts `authorization: Bearer t` |
| Scenarios.ProtectedRoute | server.js:80-104 | without the header the reply is 404, with it 200 and the body |
| Scenarios.VersionKeysDiffer | server.js:37-39 | the two `API-Version` variants get different keys, so both are stored |
| Scenarios.VersionResolution | server.js:76-92 | each `api-version` value selects its own variant |
| Scenarios.VersionedRoute | server.js:76-92 | requests with version 1.0 and 2.0 get the two distinct bodies |
| Scenarios.FeedFacts | server.js:80-86 | the `X-Channel` variant matches with the header, not without, and has a key apart from the fallback's |
| Scenarios.GatedThenFallback | server.js:80-92 | a gated variant stored before a header-less fallback answers requests with its header; the fallback answers the rest |
| Scenarios.FallbackThenGated | server.js:87-91 | with the fallback stored first, it answers even requests carrying the variant's header |

## Left out

- Requests the middleware answers before dispatch: `cors()` ends every OPTIONS request with 204, so an OPTIONS mock is stored but never served; a body `express.json()` rejects gets the error middleware's 500. `HandleRequest` describes only the requests that reach `app.all('*')`.
- Express setup, CORS, body parsing, `app.listen` and port selection (server.js:8-13, 119-125): HTTP plumbing. Requests arrive as a verb, a path and a header map.
- Reading the `mappings` directory, `JSON.parse` and console logging (server.js:45-60). `Load` takes the directory's files in order, each already parsed or marked as unparseable. A missing directory is an empty list.
- Failure paths that come from untyped JSON: a missing `request` field throwing inside key derivation or dispatch, non-string header values, and the 500 error middleware (server.js:114-117). Mocks are typed, so verb and url are always strings. Falsy statuses other than absent and `0` (`null`, `""`) are not representable.
- Node's own rejection of status codes outside 100-999 when the reply is written. The rendered status is what the handler passes to `res.status`.
- The exact text of `JSON.stringify`. The serializer keeps entry order but does not escape strings. It does not move integer-like names to the front, which JavaScript object order does.
- Two entries of one header object with the same name. They cannot come from `JSON.parse`; a list with repeated names is treated as two requirements.
- `toLowerCase` beyond ASCII letters.
- Node's folding of repeated request headers into one value, and the array form of `set-cookie`.
- The serialization of response bodies and the content type Express adds. Bodies are opaque and passed through.
- Concurrency: the store is a single-threaded JavaScript `Map` with no synchronisation.
- The route name of the registration endpoint. The tests post to `/__admin/mappings`, while the server listens on `/__new/`. `Register` is an operation whatever its route.
- tests/docker.test.js and the file-existence checks in tests/mocks.test.js: deployment and I/O only.
