/** The key under which a mock is stored (`generateMockKey` in server.js):
    the verb and url joined by `_`, followed, when the mock carries a header
    object (even an empty one), by `_` and that object's serialization. */
module MockKey {
  import opened MockTypes

  /** The members of a header object as `"name":"value"` joined by commas, in
      the object's own entry order. String escaping is not modelled. */
  function SerializeMembers(hs: HeaderList): string
  {
    if hs == [] then ""
    else
      var member := "\"" + hs[0].0 + "\":\"" + hs[0].1 + "\"";
      if |hs| == 1 then member else member + "," + SerializeMembers(hs[1..])
  }

  /** The deterministic, order-sensitive serialization of a header object
      (the stand-in for `JSON.stringify`). It is never empty. */
  function SerializeHeaders(hs: HeaderList): (r: string)
    ensures |r| >= 2 && r[0] == '{' && r[|r| - 1] == '}'
  {
    "{" + SerializeMembers(hs) + "}"
  }

  /** The key is the route `verb_url`, extended exactly when the mock carries
      a header object. */
  function GenerateKey(m: Mock): (r: string)
    ensures StartsWith(r, m.request.verb + "_" + m.request.url)
    ensures m.request.headers.None? <==> |r| == |m.request.verb + "_" + m.request.url|
  {
    var key := m.request.verb + "_" + m.request.url;
    if m.request.headers.Some? then key + "_" + SerializeHeaders(m.request.headers.value) else key
  }

  /** The same mock with its header requirement removed. */
  function WithoutHeaders(m: Mock): Mock
  {
    m.(request := m.request.(headers := None))
  }

  /** A mock without a header object is keyed by verb and url alone. */
  lemma KeyWithoutHeaders(m: Mock)
    requires m.request.headers.None?
    ensures GenerateKey(m) == m.request.verb + "_" + m.request.url
  {
  }

  /** A header object, even `{}`, extends the header-less key by a `_` and a
      non-empty suffix, so the key is strictly longer and different. */
  lemma HeadersExtendKey(m: Mock)
    requires m.request.headers.Some?
    ensures var base := GenerateKey(WithoutHeaders(m));
      && GenerateKey(m) == base + "_" + SerializeHeaders(m.request.headers.value)
      && |GenerateKey(m)| >= |base| + 3
      && GenerateKey(m)[..|base|] == base
      && GenerateKey(m) != base
  {
  }

  /** Two mocks for the same route, one with a header object and one without,
      get different keys, so the store keeps both. */
  lemma HeaderPresenceSeparatesKeys(m1: Mock, m2: Mock)
    requires m1.request.verb == m2.request.verb && m1.request.url == m2.request.url
    requires m1.request.headers.None? && m2.request.headers.Some?
    ensures GenerateKey(m1) != GenerateKey(m2)
  {
  }

  /** For one route, header objects that serialize differently give
      different keys. */
  lemma DistinctSerializationsSeparateKeys(m1: Mock, m2: Mock)
    requires m1.request.verb == m2.request.verb && m1.request.url == m2.request.url
    requires m1.request.headers.Some? && m2.request.headers.Some?
    requires SerializeHeaders(m1.request.headers.value) != SerializeHeaders(m2.request.headers.value)
    ensures GenerateKey(m1) != GenerateKey(m2)
  {
    var prefix := m1.request.verb + "_" + m1.request.url + "_";
    var s1 := SerializeHeaders(m1.request.headers.value);
    var s2 := SerializeHeaders(m2.request.headers.value);
    assert GenerateKey(m1) == prefix + s1;
    assert GenerateKey(m2) == prefix + s2;
    assert (prefix + s1)[|prefix|..] == s1;
    assert (prefix + s2)[|prefix|..] == s2;
  }

  /** A single required header with two different values serializes
      differently. */
  lemma SingleHeaderValuesSerializeApart(name: string, v1: string, v2: string)
    requires v1 != v2
    ensures SerializeHeaders([(name, v1)]) != SerializeHeaders([(name, v2)])
  {
    var open := "{" + "\"" + name + "\":\"";
    assert SerializeHeaders([(name, v1)]) == open + v1 + "\"}";
    assert SerializeHeaders([(name, v2)]) == open + v2 + "\"}";
    if |v1| == |v2| {
      assert (open + v1 + "\"}")[|open|..|open| + |v1|] == v1;
      assert (open + v2 + "\"}")[|open|..|open| + |v2|] == v2;
    } else {
      assert |open + v1 + "\"}"| != |open + v2 + "\"}"|;
    }
  }

  /** The key depends on the request matcher only: mocks that differ only in
      their response share a key, so the later registration replaces the
      earlier one. */
  lemma ResponseDoesNotAffectKey(m1: Mock, m2: Mock)
    requires m1.request == m2.request
    ensures GenerateKey(m1) == GenerateKey(m2)
  {
  }

  /** The mock registered in the repository's test is stored as `GET_/api/test`. */
  lemma TestMockKey(resp: ResponseTemplate)
    ensures GenerateKey(Mock(RequestMatcher("GET", "/api/test", None), resp)) == "GET_/api/test"
  {
  }

  /** The serialization keeps entry order, so the same two requirements
      listed in the other order give another key. */
  lemma KeyIsOrderSensitive(resp: ResponseTemplate)
    ensures var ab := Mock(RequestMatcher("GET", "/v", Some([("A", "1"), ("B", "2")])), resp);
      var ba := Mock(RequestMatcher("GET", "/v", Some([("B", "2"), ("A", "1")])), resp);
      GenerateKey(ab) != GenerateKey(ba)
  {
    var ab: HeaderList := [("A", "1"), ("B", "2")];
    var ba: HeaderList := [("B", "2"), ("A", "1")];
    assert SerializeHeaders(ab)[2] == 'A';
    assert SerializeHeaders(ba)[2] == 'B';
    var kab := GenerateKey(Mock(RequestMatcher("GET", "/v", Some(ab)), resp));
    var kba := GenerateKey(Mock(RequestMatcher("GET", "/v", Some(ba)), resp));
    assert kab == "GET_/v_" + SerializeHeaders(ab);
    assert kba == "GET_/v_" + SerializeHeaders(ba);
    assert kab[9] == 'A' && kba[9] == 'B';
  }

  /** Keys are plain concatenations, so a header-less mock whose url ends in
      `_{}` gets the same key as a mock for the shorter url with an empty
      header object, although the two match different requests: whichever
      is registered second replaces the other. */
  lemma KeysCanCollide(resp1: ResponseTemplate, resp2: ResponseTemplate)
    ensures var plain := Mock(RequestMatcher("GET", "/a_{}", None), resp1);
      var gated := Mock(RequestMatcher("GET", "/a", Some([])), resp2);
      plain.request != gated.request && GenerateKey(plain) == GenerateKey(gated)
  {
  }
}
