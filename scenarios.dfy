/** The repository's server tests and the header-gating scenarios, each
    starting from a fresh, empty table. */
module Scenarios {
  import opened MockTypes
  import opened HeaderMatch
  import opened MockStore
  import opened Dispatcher
  import opened Server
  import MockKey

  /** Registering `GET /api/test` answers 201 and stores the mock under `GET_/api/test`. */
  method RegisterTestMock() returns (reply: Reply, stored: bool)
    ensures reply.status == 201 && reply.payload == Created("Mock created")
    ensures stored
  {
    var store := new Store();
    var m := Mock(RequestMatcher("GET", "/api/test", None),
                  ResponseTemplate(Some(200), Some([("Content-Type", "application/json")]),
                                   Structured("{\"message\":\"Test successful\"}")));
    reply := Register(store, m);
    MockKey.TestMockKey(m.response);
    SetThenLookup([], "GET_/api/test", m);
    stored := store.Has("GET_/api/test");
  }

  /** A request to a route nothing was registered for gets the 404 diagnostic. */
  method UndefinedRoute() returns (reply: Reply)
    ensures reply.status == 404
    ensures reply.payload.NoMatch? && reply.payload.error == "No matching mock definition found"
    ensures reply.payload.path == "/undefined-route"
  {
    var store := new Store();
    reply := HandleRequest(store, Request("GET", "/undefined-route", map[]));
  }

  /** A registered route is answered with its status, headers and body. */
  method RegisteredRoute() returns (reply: Reply)
    ensures reply.status == 200
    ensures reply.headers == [("Content-Type", "application/json"), ("X-Custom-Header", "test-value")]
    ensures reply.payload == Passthrough(Structured("{\"message\":\"Hello, World!\"}"))
  {
    var store := new Store();
    var m := Mock(RequestMatcher("GET", "/api/hello", None),
                  ResponseTemplate(Some(200),
                                   Some([("Content-Type", "application/json"), ("X-Custom-Header", "test-value")]),
                                   Structured("{\"message\":\"Hello, World!\"}")));
    var created := Register(store, m);
    reply := HandleRequest(store, Request("GET", "/api/hello", map[]));
  }

  /** A status other than 200 is served as given. */
  method CustomStatus() returns (reply: Reply)
    ensures reply.status == 403
    ensures reply.headers == []
    ensures reply.payload == Passthrough(Structured("{\"error\":\"Forbidden\"}"))
  {
    var store := new Store();
    var m := Mock(RequestMatcher("GET", "/api/error", None),
                  ResponseTemplate(Some(403), None, Structured("{\"error\":\"Forbidden\"}")));
    var created := Register(store, m);
    reply := HandleRequest(store, Request("GET", "/api/error", map[]));
  }

  const Protected: Mock := Mock(RequestMatcher("GET", "/api/protected", Some([("Authorization", "Bearer t")])),
                                ResponseTemplate(Some(200), None, Structured("{\"ok\":true}")))

  /** Whatever key it sits under, the gated mock rejects a request without
      the header (ProtectedRejectsBare) and accepts one that sends it under
      its lower-case name (ProtectedAcceptsAuthorized). */
  lemma ProtectedRejectsBare(k: string)
    ensures Resolve([(k, Protected)], Request("GET", "/api/protected", map[])).NotFound?
  {
    var bare := Request("GET", "/api/protected", map[]);
    var required: HeaderList := [("Authorization", "Bearer t")];
    assert !HeadersSatisfied(bare.headers, Some(required)) by {
      assert !RequiredHeaderHolds(bare.headers, required[0]);
    }
    assert !Matches(Protected, bare);
    ResolveIsFirstMatch([(k, Protected)], bare);
  }

  lemma ProtectedAcceptsAuthorized(k: string)
    ensures Resolve([(k, Protected)], Request("GET", "/api/protected", map["authorization" := "Bearer t"])) == Found(Protected)
  {
    var authorized := Request("GET", "/api/protected", map["authorization" := "Bearer t"]);
    var required: HeaderList := [("Authorization", "Bearer t")];
    assert HeadersSatisfied(authorized.headers, Some(required)) by {
      LowerIs("Authorization", "authorization");
      assert RequiredHeaderHolds(authorized.headers, required[0]);
    }
    assert Matches(Protected, authorized);
    ResolvePicksFirstMatch([(k, Protected)], authorized, 0);
  }

  /** A route gated on `Authorization` is not found without the header and
      served with it. */
  method ProtectedRoute() returns (without: Reply, with: Reply)
    ensures without.status == 404 && without.payload.NoMatch?
    ensures with.status == 200 && with.payload == Passthrough(Structured("{\"ok\":true}"))
  {
    var store := new Store();
    var created := Register(store, Protected);
    assert store.entries == [(MockKey.GenerateKey(Protected), Protected)];
    ProtectedRejectsBare(MockKey.GenerateKey(Protected));
    ProtectedAcceptsAuthorized(MockKey.GenerateKey(Protected));
    without := HandleRequest(store, Request("GET", "/api/protected", map[]));
    with := HandleRequest(store, Request("GET", "/api/protected", map["authorization" := "Bearer t"]));
  }

  const Version1: Mock := Mock(RequestMatcher("GET", "/api/versioned", Some([("API-Version", "1.0")])),
                               ResponseTemplate(None, None, Text("v1")))
  const Version2: Mock := Mock(RequestMatcher("GET", "/api/versioned", Some([("API-Version", "2.0")])),
                               ResponseTemplate(None, None, Text("v2")))

  lemma VersionKeysDiffer()
    ensures MockKey.GenerateKey(Version1) != MockKey.GenerateKey(Version2)
  {
    MockKey.SingleHeaderValuesSerializeApart("API-Version", "1.0", "2.0");
    MockKey.DistinctSerializationsSeparateKeys(Version1, Version2);
  }

  /** Each version header selects its own variant, whichever keys they have. */
  lemma VersionResolution(k1: string, k2: string)
    ensures Resolve([(k1, Version1), (k2, Version2)], Request("GET", "/api/versioned", map["api-version" := "1.0"])) == Found(Version1)
    ensures Resolve([(k1, Version1), (k2, Version2)], Request("GET", "/api/versioned", map["api-version" := "2.0"])) == Found(Version2)
  {
    var e := [(k1, Version1), (k2, Version2)];
    var q1 := Request("GET", "/api/versioned", map["api-version" := "1.0"]);
    var q2 := Request("GET", "/api/versioned", map["api-version" := "2.0"]);
    var h1: HeaderList := [("API-Version", "1.0")];
    var h2: HeaderList := [("API-Version", "2.0")];
    assert HeadersSatisfied(q1.headers, Some(h1)) && !HeadersSatisfied(q2.headers, Some(h1)) &&
           HeadersSatisfied(q2.headers, Some(h2)) by {
      LowerIs("API-Version", "api-version");
      assert RequiredHeaderHolds(q1.headers, h1[0]);
      assert !RequiredHeaderHolds(q2.headers, h1[0]);
      assert RequiredHeaderHolds(q2.headers, h2[0]);
    }
    assert Matches(Version1, q1) && !Matches(Version1, q2) && Matches(Version2, q2);
    ResolvePicksFirstMatch(e, q1, 0);
    ResolvePicksFirstMatch(e, q2, 1);
  }

  /** Two variants of one route gated on different `API-Version` values are
      both kept, and each request gets the variant its header selects. */
  method VersionedRoute() returns (v1: Reply, v2: Reply)
    ensures v1.payload == Passthrough(Text("v1"))
    ensures v2.payload == Passthrough(Text("v2"))
  {
    var store := new Store();
    var r1 := Register(store, Version1);
    VersionKeysDiffer();
    var r2 := Register(store, Version2);
    var k1, k2 := MockKey.GenerateKey(Version1), MockKey.GenerateKey(Version2);
    assert store.entries == [(k1, Version1), (k2, Version2)];
    VersionResolution(k1, k2);
    v1 := HandleRequest(store, Request("GET", "/api/versioned", map["api-version" := "1.0"]));
    v2 := HandleRequest(store, Request("GET", "/api/versioned", map["api-version" := "2.0"]));
  }

  const Beta: Mock := Mock(RequestMatcher("GET", "/api/feed", Some([("X-Channel", "beta")])),
                           ResponseTemplate(None, None, Text("beta")))
  const Stable: Mock := Mock(RequestMatcher("GET", "/api/feed", None), ResponseTemplate(None, None, Text("stable")))

  lemma FeedFacts()
    ensures Matches(Beta, Request("GET", "/api/feed", map["x-channel" := "beta"]))
    ensures !Matches(Beta, Request("GET", "/api/feed", map[]))
    ensures MockKey.GenerateKey(Beta) != MockKey.GenerateKey(Stable)
  {
    var h: HeaderList := [("X-Channel", "beta")];
    assert HeadersSatisfied(map["x-channel" := "beta"], Some(h)) by {
      LowerIs("X-Channel", "x-channel");
      assert RequiredHeaderHolds(map["x-channel" := "beta"], h[0]);
    }
    assert !HeadersSatisfied(map[], Some(h)) by {
      assert !RequiredHeaderHolds(map[], h[0]);
    }
    MockKey.HeaderPresenceSeparatesKeys(Stable, Beta);
  }

  /** A gated variant registered before a header-less fallback for the same
      route answers requests that carry its header, and the fallback answers
      the others. */
  method GatedThenFallback() returns (gated: Reply, plain: Reply)
    ensures gated.payload == Passthrough(Text("beta"))
    ensures plain.payload == Passthrough(Text("stable"))
  {
    var store := new Store();
    var r1 := Register(store, Beta);
    FeedFacts();
    var r2 := Register(store, Stable);
    var e := [(MockKey.GenerateKey(Beta), Beta), (MockKey.GenerateKey(Stable), Stable)];
    assert store.entries == e;
    var withHeader := Request("GET", "/api/feed", map["x-channel" := "beta"]);
    var withoutHeader := Request("GET", "/api/feed", map[]);
    ResolvePicksFirstMatch(e, withHeader, 0);
    ResolvePicksFirstMatch(e, withoutHeader, 1);
    gated := HandleRequest(store, withHeader);
    plain := HandleRequest(store, withoutHeader);
  }

  /** Registered the other way round, the header-less fallback answers every
      request to the route, including those carrying the variant's header. */
  method FallbackThenGated() returns (reply: Reply)
    ensures reply.payload == Passthrough(Text("stable"))
  {
    var store := new Store();
    var r1 := Register(store, Stable);
    FeedFacts();
    var r2 := Register(store, Beta);
    var e := [(MockKey.GenerateKey(Stable), Stable), (MockKey.GenerateKey(Beta), Beta)];
    assert store.entries == e;
    var withHeader := Request("GET", "/api/feed", map["x-channel" := "beta"]);
    ResolvePicksFirstMatch(e, withHeader, 0);
    reply := HandleRequest(store, withHeader);
  }
}
