/** The two request handlers of server.js built on the table: registration,
    which stores the posted mock and answers 201, and the catch-all handler,
    which dispatches and renders either the chosen mock's response (status,
    headers and body, with defaults) or the 404 diagnostic. */
module Server {
  import opened MockTypes
  import opened MockStore
  import opened Dispatcher
  import MockKey

  const NotFoundError: string := "No matching mock definition found"
  const CreatedStatus: string := "Mock created"

  /** What goes in the body of a reply: the mock's own body unchanged, the
      404 diagnostic with the request echoed, or the registration notice. */
  datatype Payload =
    | Passthrough(body: Body)
    | NoMatch(error: string, verb: string, path: string, headers: map<string, string>)
    | Created(status: string)

  datatype Reply = Reply(status: int, headers: HeaderList, payload: Payload)

  /** `response.status || 200`: an absent status and the status 0 are both
      falsy and give 200. */
  function StatusOrDefault(status: Option<int>): (r: int)
    ensures r != 0
    ensures status.Some? && status.value != 0 ==> r == status.value
    ensures status.None? ==> r == 200
    ensures status == Some(0) ==> r == 200
  {
    if status.Some? && status.value != 0 then status.value else 200
  }

  /** The reply for a chosen mock: defaulted status, the template's headers
      or none, and the body unchanged. */
  function RenderMock(r: ResponseTemplate): (reply: Reply)
    ensures reply.status != 0
    ensures reply.payload == Passthrough(r.body)
    ensures r.headers.Some? ==> reply.headers == r.headers.value
    ensures r.headers.None? ==> reply.headers == []
  {
    Reply(StatusOrDefault(r.status), r.headers.GetOr([]), Passthrough(r.body))
  }

  /** A found mock is rendered from its template; only the not-found outcome
      gives the 404 diagnostic. */
  function RenderOutcome(o: Outcome): (reply: Reply)
    ensures reply.payload.NoMatch? <==> o.NotFound?
    ensures o.NotFound? ==> reply.status == 404 && reply.payload.error == NotFoundError
    ensures o.Found? ==> reply.payload == Passthrough(o.mock.response.body)
    ensures o.Found? ==> reply == RenderMock(o.mock.response)
    ensures o.NotFound? ==> reply == Reply(404, [], NoMatch(NotFoundError, o.verb, o.path, o.headers))
  {
    match o
    case Found(m) => RenderMock(m.response)
    case NotFound(verb, path, headers) => Reply(404, [], NoMatch(NotFoundError, verb, path, headers))
  }

  /** The rendered status is the template's status when it is present and
      not zero, otherwise 200; it is never 0. Headers default to none and
      the body is passed through. */
  lemma RenderedResponseDefaults(r: ResponseTemplate)
    ensures var reply := RenderMock(r);
      && (r.status.Some? && r.status.value != 0 ==> reply.status == r.status.value)
      && (r.status.None? || r.status.value == 0 ==> reply.status == 200)
      && reply.status != 0
      && (r.headers.None? ==> reply.headers == [])
      && (r.headers.Some? ==> reply.headers == r.headers.value)
      && reply.payload == Passthrough(r.body)
  {
  }

  /** A mock of the shape the repository's mapping files have is rendered
      with exactly its declared status, which is a valid HTTP status. */
  lemma ValidMockKeepsStatus(m: Mock)
    requires ValidMock(m)
    ensures RenderMock(m.response).status == m.response.status.value
    ensures 100 <= RenderMock(m.response).status < 600
  {
  }

  /** A not-found outcome is rendered as a 404 carrying the fixed error text
      and the request's verb, path and headers. */
  lemma NotFoundRendering(e: Entries, req: Request)
    requires forall i :: 0 <= i < |e| ==> !Matches(e[i].1, req)
    ensures RenderOutcome(Resolve(e, req)) == Reply(404, [], NoMatch(NotFoundError, req.verb, req.path, req.headers))
  {
    ResolveIsFirstMatch(e, req);
  }

  /** The registration handler: store the mock under its key, answer 201. */
  method Register(store: Store, m: Mock) returns (reply: Reply)
    requires store.Valid()
    modifies store
    ensures store.Valid()
    ensures store.entries == MapSet(old(store.entries), MockKey.GenerateKey(m), m)
    ensures reply == Reply(201, [], Created(CreatedStatus))
  {
    store.Insert(m);
    reply := Reply(201, [], Created(CreatedStatus));
  }

  /** The catch-all handler: dispatch, then render. The reply is the 404
      diagnostic exactly when no stored mock matches; otherwise it is the
      rendering of the first matching mock's response. */
  method HandleRequest(store: Store, req: Request) returns (reply: Reply)
    ensures reply == RenderOutcome(Resolve(store.entries, req))
    ensures reply.payload.NoMatch? <==> forall i :: 0 <= i < |store.entries| ==> !Matches(store.entries[i].1, req)
    ensures reply.payload.NoMatch? ==>
      reply == Reply(404, [], NoMatch(NotFoundError, req.verb, req.path, req.headers))
    ensures !reply.payload.NoMatch? ==> exists i :: (0 <= i < |store.entries| &&
      Matches(store.entries[i].1, req) && reply == RenderMock(store.entries[i].1.response))
  {
    var out := Dispatch(store, req);
    reply := RenderOutcome(out);
  }
}
