/** The catch-all request handler's search (the `app.all('*')` loop in
    server.js): scan the table in insertion order and take the first mock
    whose verb and url equal the request's and whose header requirement, if
    it has one, the request satisfies. */
module Dispatcher {
  import opened MockTypes
  import opened HeaderMatch
  import opened MockStore

  /** The dispatcher's answer: the chosen mock, or a not-found outcome that
      echoes the request's verb, path and headers. */
  datatype Outcome = Found(mock: Mock) | NotFound(verb: string, path: string, headers: map<string, string>)

  /** Exact, case-sensitive comparison of verb and url. */
  predicate RouteMatches(m: Mock, req: Request) {
    m.request.verb == req.verb && m.request.url == req.path
  }

  /** The test applied to each entry: the route must match, and a mock with
      a header object must also have its headers satisfied. */
  predicate Matches(m: Mock, req: Request)
    ensures Matches(m, req) ==> RouteMatches(m, req)
    ensures m.request.headers.None? ==> (Matches(m, req) <==> RouteMatches(m, req))
  {
    RouteMatches(m, req) &&
    (if m.request.headers.Some? then HeadersSatisfied(req.headers, m.request.headers) else true)
  }

  /** The first position at or after `i` whose mock matches. */
  function FirstMatchFrom(e: Entries, req: Request, i: nat): (r: Option<nat>)
    requires i <= |e|
    ensures r.Some? ==> i <= r.value < |e| && Matches(e[r.value].1, req)
    decreases |e| - i
  {
    if i == |e| then None
    else if Matches(e[i].1, req) then Some(i)
    else FirstMatchFrom(e, req, i + 1)
  }

  /** The outcome the dispatcher must produce for a table and a request. */
  function Resolve(e: Entries, req: Request): (out: Outcome)
    ensures out.Found? ==> exists i :: 0 <= i < |e| && e[i].1 == out.mock && Matches(out.mock, req)
    ensures out.NotFound? ==> out == NotFound(req.verb, req.path, req.headers)
  {
    match FirstMatchFrom(e, req, 0)
    case Some(i) => Found(e[i].1)
    case None => NotFound(req.verb, req.path, req.headers)
  }

  lemma {:induction false} FirstMatchFromSpec(e: Entries, req: Request, i: nat)
    requires i <= |e|
    ensures var r := FirstMatchFrom(e, req, i);
      && (r.Some? ==> i <= r.value < |e| && Matches(e[r.value].1, req))
      && (r.Some? ==> forall j :: i <= j < r.value ==> !Matches(e[j].1, req))
      && (r.None? ==> forall j :: i <= j < |e| ==> !Matches(e[j].1, req))
    decreases |e| - i
  {
    if i < |e| && !Matches(e[i].1, req) {
      FirstMatchFromSpec(e, req, i + 1);
    }
  }

  /** Resolve answers with the earliest matching entry, and with not-found
      (echoing the request) exactly when no entry matches. */
  lemma ResolveIsFirstMatch(e: Entries, req: Request)
    ensures var out := Resolve(e, req);
      && (out.Found? ==> exists i :: 0 <= i < |e| && e[i].1 == out.mock && Matches(out.mock, req) &&
                                    forall j :: 0 <= j < i ==> !Matches(e[j].1, req))
      && (out.NotFound? <==> forall i :: 0 <= i < |e| ==> !Matches(e[i].1, req))
      && (out.NotFound? ==> out == NotFound(req.verb, req.path, req.headers))
  {
    FirstMatchFromSpec(e, req, 0);
  }

  /** An entry that matches, with no match before it, is the answer; in
      particular a header-gated entry that fails its check before it does
      not end the scan. */
  lemma ResolvePicksFirstMatch(e: Entries, req: Request, i: nat)
    requires i < |e| && Matches(e[i].1, req)
    requires forall j :: 0 <= j < i ==> !Matches(e[j].1, req)
    ensures Resolve(e, req) == Found(e[i].1)
  {
    FirstMatchFromSpec(e, req, 0);
  }

  /** Entries that do not match can be dropped from the front of the table
      without changing the answer. */
  lemma NonMatchingPrefixSkipped(pre: Entries, rest: Entries, req: Request)
    requires forall j :: 0 <= j < |pre| ==> !Matches(pre[j].1, req)
    ensures Resolve(pre + rest, req) == Resolve(rest, req)
  {
    var e := pre + rest;
    FirstMatchFromSpec(e, req, 0);
    FirstMatchFromSpec(rest, req, 0);
    match FirstMatchFrom(rest, req, 0)
    case Some(k) =>
      assert e[|pre| + k] == rest[k];
      forall j | 0 <= j < |pre| + k
        ensures !Matches(e[j].1, req)
      {
        if j < |pre| {
          assert e[j] == pre[j];
        } else {
          assert e[j] == rest[j - |pre|];
        }
      }
      ResolvePicksFirstMatch(e, req, |pre| + k);
    case None =>
      forall j | 0 <= j < |e|
        ensures !Matches(e[j].1, req)
      {
        if j < |pre| {
          assert e[j] == pre[j];
        } else {
          assert e[j] == rest[j - |pre|];
        }
      }
  }

  /** A header-less mock for a route answers every request to that route
      that reaches it, so no entry stored after it is ever returned for that
      route: insertion order is the only priority. */
  lemma HeaderlessMockShadowsLaterEntries(e: Entries, req: Request, i: nat)
    requires i < |e| && e[i].1.request.headers.None? && RouteMatches(e[i].1, req)
    ensures Resolve(e, req).Found?
    ensures exists k :: 0 <= k <= i && Resolve(e, req) == Found(e[k].1)
  {
    FirstMatchFromSpec(e, req, 0);
    assert Matches(e[i].1, req);
  }

  /** Without any mock for the request's verb and path, the answer is not-found. */
  lemma NoRouteMeansNotFound(e: Entries, req: Request)
    requires forall i :: 0 <= i < |e| ==> !RouteMatches(e[i].1, req)
    ensures Resolve(e, req) == NotFound(req.verb, req.path, req.headers)
  {
    FirstMatchFromSpec(e, req, 0);
  }

  /** A mock registered for a request that nothing in the table answers is
      the one that answers it afterwards, whether its key was new (appended)
      or already present (replaced in place). */
  lemma RegisteredMockAnswers(e: Entries, key: string, m: Mock, req: Request)
    requires forall i :: 0 <= i < |e| ==> !Matches(e[i].1, req)
    requires Matches(m, req)
    ensures Resolve(MapSet(e, key, m), req) == Found(m)
  {
    var r := MapSet(e, key, m);
    match IndexOf(e, key)
    case Some(k) =>
      assert r[k] == (key, m);
      assert forall j :: 0 <= j < k ==> r[j] == e[j];
      ResolvePicksFirstMatch(r, req, k);
    case None =>
      assert r[|e|] == (key, m);
      assert forall j :: 0 <= j < |e| ==> r[j] == e[j];
      ResolvePicksFirstMatch(r, req, |e|);
  }

  /** The scan of the live table, with the loop's early exit. */
  method Dispatch(store: Store, req: Request) returns (out: Outcome)
    ensures out == Resolve(store.entries, req)
    ensures out.Found? ==> exists i :: (0 <= i < |store.entries| && store.entries[i].1 == out.mock &&
      Matches(out.mock, req) && forall j :: 0 <= j < i ==> !Matches(store.entries[j].1, req))
    ensures out.NotFound? <==> forall i :: 0 <= i < |store.entries| ==> !Matches(store.entries[i].1, req)
    ensures out.NotFound? ==> out == NotFound(req.verb, req.path, req.headers)
  {
    var entries := store.entries;
    var matchingMock: Option<Mock> := None;
    var i := 0;
    while i < |entries|
      invariant 0 <= i <= |entries|
      invariant matchingMock.None?
      invariant FirstMatchFrom(entries, req, 0) == FirstMatchFrom(entries, req, i)
    {
      var mock := entries[i].1;
      var methodMatches := mock.request.verb == req.verb;
      var urlMatches := mock.request.url == req.path;
      if methodMatches && urlMatches {
        if mock.request.headers.Some? {
          var ok := HeadersMatch(req.headers, mock.request.headers);
          if ok {
            matchingMock := Some(mock);
            break;
          }
        } else {
          matchingMock := Some(mock);
          break;
        }
      }
      i := i + 1;
    }
    if matchingMock.None? {
      out := NotFound(req.verb, req.path, req.headers);
    } else {
      out := Found(matchingMock.value);
    }
    ResolveIsFirstMatch(entries, req);
  }
}
