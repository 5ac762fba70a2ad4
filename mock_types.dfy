/** The shapes the mock server works with: a mock definition (a request matcher
    and a response template), an incoming request descriptor, and the shape
    check the repository's mapping files are expected to pass. */
module MockTypes {

  datatype Option<+T> = None | Some(value: T) {
    function GetOr(default: T): T {
      match this
      case Some(v) => v
      case None => default
    }
  }

  /** The entries of a JSON object of header names to string values, in the
      object's insertion order. */
  type HeaderList = seq<(string, string)>

  /** A response body, passed through to the wire untouched. A structured JSON
      value is kept as its already-serialized text; its encoding is not modelled. */
  datatype Body = NoBody | Text(text: string) | Structured(json: string)

  /** `request` of a mock. Its `method` field is called `verb` here, `method`
      being a Dafny keyword. `headers` is None when the field is absent or
      null, and Some(...) when it is an object, even an empty one. */
  datatype RequestMatcher = RequestMatcher(verb: string, url: string, headers: Option<HeaderList>)

  /** `response` of a mock: `status` is None when absent. */
  datatype ResponseTemplate = ResponseTemplate(status: Option<int>, headers: Option<HeaderList>, body: Body)

  datatype Mock = Mock(request: RequestMatcher, response: ResponseTemplate)

  /** What the HTTP layer hands the dispatcher: the verb (`req.method`), the
      path without its query string, and the headers keyed by lower-case name. */
  datatype Request = Request(verb: string, path: string, headers: map<string, string>)

  const HttpMethods: set<string> := {"GET", "POST", "PUT", "DELETE", "PATCH", "HEAD", "OPTIONS"}

  predicate StartsWith(s: string, prefix: string) {
    |prefix| <= |s| && s[..|prefix|] == prefix
  }

  /** The structure the repository's tests demand of its mapping files. The
      server itself never checks it: registration and loading accept any mock. */
  predicate ValidMock(m: Mock) {
    && m.request.verb in HttpMethods
    && StartsWith(m.request.url, "/")
    && m.response.status.Some?
    && 100 <= m.response.status.value < 600
  }
}
