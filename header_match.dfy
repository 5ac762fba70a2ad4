/** The header predicate of the dispatcher (`headersMatch` in server.js): every
    header a mock requires must be present in the request, under its lower-cased
    name, with a non-empty value equal to the required one. */
module HeaderMatch {
  import opened MockTypes

  /** ASCII lower-casing of one character: the result is never a capital,
      a capital becomes a small letter, and anything else is kept. */
  function LowerChar(c: char): (r: char)
    ensures !('A' <= r <= 'Z')
    ensures 'A' <= c <= 'Z' ==> 'a' <= r <= 'z'
    ensures !('A' <= c <= 'Z') ==> r == c
  {
    if 'A' <= c <= 'Z' then (c as int + 32) as char else c
  }

  /** Lower-casing of a header name: the result has no capital letter left,
      and every character that was not a capital is kept where it stood. */
  function Lower(s: string): (r: string)
    ensures |r| == |s|
    ensures forall i :: 0 <= i < |r| ==> !('A' <= r[i] <= 'Z')
    ensures forall i :: 0 <= i < |s| && !('A' <= s[i] <= 'Z') ==> r[i] == s[i]
  {
    seq(|s|, i requires 0 <= i < |s| => LowerChar(s[i]))
  }

  /** One required (name, value) pair holds in the observed headers: the value
      found under the lower-cased name exists, is not empty and equals the
      required value exactly. */
  predicate RequiredHeaderHolds(observed: map<string, string>, required: (string, string)) {
    var key := Lower(required.0);
    key in observed && observed[key] != "" && observed[key] == required.1
  }

  /** No requirement holds of every request; otherwise every required pair must hold. */
  predicate HeadersSatisfied(observed: map<string, string>, required: Option<HeaderList>)
    ensures HeadersSatisfied(observed, required) && required.Some? ==>
      forall i :: 0 <= i < |required.value| ==>
        Lower(required.value[i].0) in observed && observed[Lower(required.value[i].0)] == required.value[i].1
  {
    match required
    case None => true
    case Some(hs) => forall i :: 0 <= i < |hs| ==> RequiredHeaderHolds(observed, hs[i])
  }

  /** The loop of `headersMatch`: scans the required pairs in order and gives
      up at the first that does not hold. */
  method HeadersMatch(observed: map<string, string>, required: Option<HeaderList>) returns (ok: bool)
    ensures ok <==> HeadersSatisfied(observed, required)
    ensures !ok ==> (required.Some? &&
      exists i :: 0 <= i < |required.value| && !RequiredHeaderHolds(observed, required.value[i]))
  {
    if required.None? {
      return true;
    }
    var hs := required.value;
    for i := 0 to |hs|
      invariant forall j :: 0 <= j < i ==> RequiredHeaderHolds(observed, hs[j])
    {
      var key := Lower(hs[i].0);
      var headerValue := if key in observed then Some(observed[key]) else None;
      if headerValue.None? || headerValue.value == "" || headerValue.value != hs[i].1 {
        return false;
      }
    }
    return true;
  }

  /** A mock without a header requirement accepts whatever the request carries. */
  lemma AbsentRequirementAlwaysHolds(observed: map<string, string>)
    ensures HeadersSatisfied(observed, None)
  {
  }

  /** A requirement given as an empty object accepts every request too. */
  lemma EmptyRequirementAlwaysHolds(observed: map<string, string>)
    ensures HeadersSatisfied(observed, Some([]))
  {
  }

  /** A required pair fails when its header is missing, empty or different,
      and a single failing pair rejects the whole requirement. */
  lemma OneFailingPairRejects(observed: map<string, string>, hs: HeaderList, i: nat)
    requires i < |hs|
    requires Lower(hs[i].0) !in observed
          || observed[Lower(hs[i].0)] == ""
          || observed[Lower(hs[i].0)] != hs[i].1
    ensures !HeadersSatisfied(observed, Some(hs))
  {
  }

  /** Because an empty header value is treated as missing, a requirement that
      asks for the empty string can never be met. */
  lemma EmptyRequiredValueNeverHolds(observed: map<string, string>, hs: HeaderList, i: nat)
    requires i < |hs| && hs[i].1 == ""
    ensures !HeadersSatisfied(observed, Some(hs))
  {
  }

  /** Only the request headers named by the requirement matter: two requests
      that agree on those give the same verdict, whatever else they carry. */
  lemma OnlyRequiredNamesMatter(obs1: map<string, string>, obs2: map<string, string>, hs: HeaderList)
    requires forall i :: 0 <= i < |hs| ==>
      (Lower(hs[i].0) in obs1 <==> Lower(hs[i].0) in obs2) &&
      (Lower(hs[i].0) in obs1 ==> obs1[Lower(hs[i].0)] == obs2[Lower(hs[i].0)])
    ensures HeadersSatisfied(obs1, Some(hs)) <==> HeadersSatisfied(obs2, Some(hs))
  {
  }

  /** Extra request headers never turn a match into a mismatch. */
  lemma ExtraHeadersIgnored(observed: map<string, string>, extended: map<string, string>, required: Option<HeaderList>)
    requires forall k :: k in observed ==> k in extended && extended[k] == observed[k]
    requires HeadersSatisfied(observed, required)
    ensures HeadersSatisfied(extended, required)
  {
  }

  /** Lowering an already lowered name changes nothing, so a name and its
      lower-case form are looked up under the same key. */
  lemma LowerIdempotent(s: string)
    ensures Lower(Lower(s)) == Lower(s)
  {
  }

  /** Lower-casing is decided character by character. */
  lemma LowerIs(s: string, t: string)
    requires |s| == |t|
    requires forall i :: 0 <= i < |s| ==> LowerChar(s[i]) == t[i]
    ensures Lower(s) == t
  {
  }

  /** Two names that differ only in the case of ASCII letters lower to the
      same string. */
  lemma LowerIgnoresCase(s: string, t: string)
    requires |s| == |t|
    requires forall i :: 0 <= i < |s| ==>
      s[i] == t[i] ||
      ('A' <= s[i] <= 'Z' && t[i] as int == s[i] as int + 32) ||
      ('A' <= t[i] <= 'Z' && s[i] as int == t[i] as int + 32)
    ensures Lower(s) == Lower(t)
  {
  }

  /** Header names are compared without regard to case: respelling a required
      name with other capitals does not change the verdict. Values are not
      treated that way (see ValueComparedExactly). */
  lemma NameCaseIgnored(observed: map<string, string>, hs: HeaderList, i: nat, name: string)
    requires i < |hs|
    requires Lower(name) == Lower(hs[i].0)
    ensures HeadersSatisfied(observed, Some(hs[i := (name, hs[i].1)])) <==> HeadersSatisfied(observed, Some(hs))
  {
    var hs' := hs[i := (name, hs[i].1)];
    assert RequiredHeaderHolds(observed, hs'[i]) <==> RequiredHeaderHolds(observed, hs[i]);
    forall j | 0 <= j < |hs|
      ensures RequiredHeaderHolds(observed, hs'[j]) <==> RequiredHeaderHolds(observed, hs[j])
    {
    }
  }

  /** Sending `x-api-key` satisfies a requirement on `X-API-Key`, while a value
      that differs only in case does not. */
  lemma ValueComparedExactly()
    ensures Lower("X-API-Key") == "x-api-key"
    ensures HeadersSatisfied(map["x-api-key" := "secret"], Some([("X-API-Key", "secret")]))
    ensures !HeadersSatisfied(map["x-api-key" := "Secret"], Some([("X-API-Key", "secret")]))
  {
    assert Lower("X-API-Key") == "x-api-key";
    var hs := [("X-API-Key", "secret")];
    assert !RequiredHeaderHolds(map["x-api-key" := "Secret"], hs[0]);
  }

  /** A requirement made of two parts holds exactly when each part does. */
  lemma SatisfiedConcat(observed: map<string, string>, a: HeaderList, b: HeaderList)
    ensures HeadersSatisfied(observed, Some(a + b)) <==>
            HeadersSatisfied(observed, Some(a)) && HeadersSatisfied(observed, Some(b))
  {
    if HeadersSatisfied(observed, Some(a)) && HeadersSatisfied(observed, Some(b)) {
      forall i | 0 <= i < |a + b|
        ensures RequiredHeaderHolds(observed, (a + b)[i])
      {
        if i < |a| {
          assert (a + b)[i] == a[i];
        } else {
          assert (a + b)[i] == b[i - |a|];
        }
      }
    }
    if HeadersSatisfied(observed, Some(a + b)) {
      forall i | 0 <= i < |b|
        ensures RequiredHeaderHolds(observed, b[i])
      {
        assert (a + b)[|a| + i] == b[i];
      }
      forall i | 0 <= i < |a|
        ensures RequiredHeaderHolds(observed, a[i])
      {
        assert (a + b)[i] == a[i];
      }
    }
  }
}
