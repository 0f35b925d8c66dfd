/**
 * `config.MapCollection` and `config.MapEnvironment`: a decoded YAML document
 * turned into domain records, with the required fields checked in order, the
 * method normalised, nil maps made empty and the body chosen by priority.
 * Go's nil maps in the decoded document are `None`.
 */
module ConfigMapper {
  import opened Common
  import opened Text
  import opened Errors
  import opened Json
  import opened Domain
  import Paths

  datatype YamlJsonPathAssertion = YamlJsonPathAssertion(
    mustExist: bool,
    eq: Option<string>,
    contains: Option<string>,
    matches: Option<string>,
    gt: Option<real>,
    lt: Option<real>)

  datatype YamlAssertions = YamlAssertions(
    status: Option<int>,
    maxMs: Option<int>,
    jsonPath: Option<map<string, YamlJsonPathAssertion>>)

  datatype YamlRequest = YamlRequest(
    name: string,
    verb: string,
    url: string,
    headers: Option<StringMap>,
    json: Option<map<string, Json>>,
    form: Option<StringMap>,
    raw: string,
    contentType: string,
    assertions: YamlAssertions,
    extract: Option<StringMap>)

  datatype YamlCollection = YamlCollection(name: string, vars: Option<StringMap>, requests: seq<YamlRequest>)

  datatype YamlEnvironment = YamlEnvironment(vars: Option<StringMap>)

  /** The seven methods a request may use. */
  const Methods: set<Method> := {MethodGet, MethodPost, MethodPut, MethodPatch, MethodDelete, MethodHead, MethodOptions}

  /** `parseMethod`: the trimmed, upper-cased method when it is one of `Methods`. */
  function ParseMethod(m: string): (r: Result<Method, Error>)
    ensures r.Ok? ==> r.value in Methods
  {
    var up := ToUpper(TrimSpace(m));
    if up in Methods then Ok(up) else Err(Leaf("unsupported method " + Quote(m)))
  }

  /** Accepted exactly when the normalised text names one of the seven methods, and then as that text. */
  lemma ParseMethodMeans(m: string)
    ensures ParseMethod(m).Ok? <==> ToUpper(TrimSpace(m)) in Methods
    ensures ParseMethod(m).Ok? ==> ParseMethod(m).value == ToUpper(TrimSpace(m))
    ensures ParseMethod(m).Err? ==> ParseMethod(m).error == Leaf("unsupported method " + Quote(m))
  {
  }

  /** A method already in `Methods` is left as it is. */
  lemma MethodIsNormal(v: Method)
    requires v in Methods
    ensures ToUpper(TrimSpace(v)) == v
  {
    TrimSpaceOfNonBlankEdges(v);
    assert TrimSpace(v) == v;
  }

  /** Parsing a parsed method gives it back: the result is already in normal form. */
  lemma ParseMethodIdempotent(m: string)
    requires ParseMethod(m).Ok?
    ensures ParseMethod(ParseMethod(m).value) == ParseMethod(m)
  {
    MethodIsNormal(ParseMethod(m).value);
  }

  /** `invalidField`: an invalid-config error of `config.map` wrapping `ErrInvalidConfig`. */
  function InvalidField(path: string, field: string, msg: string): (r: Error)
    ensures KindOf(r) == Some(InvalidConfig)
    ensures ErrInvalidConfig in Chain(r)
  {
    var inner := Wrapped("field " + field + ": " + msg + ": ", ErrInvalidConfig);
    assert Chain(inner) == [inner, ErrInvalidConfig];
    OpErrorKind("config.map", InvalidConfig, path, Some(inner), InvalidConfig);
    OpError("config.map", InvalidConfig, path, Some(inner))
  }

  /**
   * The body selection: a JSON body if one is given, else a form, else a
   * non-blank raw text, else none; the content type is always trimmed and the
   * fields of the other variants stay at their zero values.
   */
  function SelectBody(json: Option<map<string, Json>>, form: Option<StringMap>, raw: string, contentType: string): (b: BodySpec)
    ensures b.contentType == TrimSpace(contentType)
    ensures b.kind == BodyJson <==> json.Some?
    ensures b.kind == BodyForm <==> json.None? && form.Some?
    ensures b.kind == BodyRaw <==> json.None? && form.None? && !IsBlank(raw)
    ensures b.kind == BodyNone <==> json.None? && form.None? && IsBlank(raw)
    ensures b.json == (if b.kind == BodyJson then json else None)
    ensures b.form == (if b.kind == BodyForm then form else None)
    ensures b.raw == (if b.kind == BodyRaw then raw else "")
  {
    var chosen :=
      if json.Some? then BodySpec(BodyJson, json, None, "", "")
      else if form.Some? then BodySpec(BodyForm, None, form, "", "")
      else if TrimSpace(raw) != "" then BodySpec(BodyRaw, None, None, raw, "")
      else BodyOf(BodyNone);
    chosen.(contentType := TrimSpace(contentType))
  }

  /** One assertion of the document, all six checks copied. */
  function ToAssertion(v: YamlJsonPathAssertion): (a: JsonPathAssertion)
    ensures a.mustExist == v.mustExist && a.eq == v.eq && a.contains == v.contains
    ensures a.matches == v.matches && a.gt == v.gt && a.lt == v.lt
  {
    JsonPathAssertion(v.mustExist, v.eq, v.contains, v.matches, v.gt, v.lt)
  }

  /** `mapJSONPath`: nil stays nil, otherwise every key keeps its converted assertion. */
  function MapJsonPath(m: Option<map<string, YamlJsonPathAssertion>>): (r: Option<map<string, JsonPathAssertion>>)
    ensures r.Some? <==> m.Some?
    ensures r.Some? ==> r.value.Keys == m.value.Keys
    ensures r.Some? ==> forall k :: k in r.value ==> r.value[k] == ToAssertion(m.value[k])
  {
    if m.None? then None else Some(map k | k in m.value :: ToAssertion(m.value[k]))
  }

  /** The `for k, v := range in` loop of `mapJSONPath`. */
  method MapJsonPathEach(m: Option<map<string, YamlJsonPathAssertion>>) returns (r: Option<map<string, JsonPathAssertion>>)
    ensures r == MapJsonPath(m)
  {
    if m.None? {
      return None;
    }
    var out: map<string, JsonPathAssertion> := map[];
    var todo := m.value.Keys;
    while todo != {}
      invariant todo <= m.value.Keys
      invariant out.Keys == m.value.Keys - todo
      invariant forall k :: k in out ==> out[k] == ToAssertion(m.value[k])
      decreases todo
    {
      var k :| k in todo;
      out := out[k := ToAssertion(m.value[k])];
      todo := todo - {k};
    }
    r := Some(out);
    assert out == MapJsonPath(m).value;
  }

  /** `fmt.Sprintf("requests[%d]", i)`. */
  function FieldPrefix(i: nat): string {
    "requests[" + NatToString(i) + "]"
  }

  /** One request of the loop: method required, then URL required, then the method parsed. */
  function MapRequest(path: string, i: nat, r: YamlRequest): (q: Result<RequestSpec, Error>)
    ensures q.Ok? <==> !IsBlank(r.verb) && !IsBlank(r.url) && ParseMethod(r.verb).Ok?
    ensures q.Err? ==> KindOf(q.error) == Some(InvalidConfig)
  {
    if TrimSpace(r.verb) == "" then Err(InvalidField(path, FieldPrefix(i) + ".method", "method is required"))
    else if TrimSpace(r.url) == "" then Err(InvalidField(path, FieldPrefix(i) + ".url", "url is required"))
    else
      match ParseMethod(r.verb)
      case Err(e) => Err(InvalidField(path, FieldPrefix(i) + ".method", Message(e)))
      case Ok(verb) =>
        Ok(RequestSpec(
          r.name, verb, r.url, Some(r.headers.GetOr(map[])),
          SelectBody(r.json, r.form, r.raw, r.contentType),
          AssertionsSpec(r.assertions.status, r.assertions.maxMs, MapJsonPath(r.assertions.jsonPath).GetOr(map[])),
          r.extract.GetOr(map[])))
  }

  /**
   * A blank method is reported before a blank URL; an accepted request keeps
   * its name and URL, takes the parsed method and the selected body, and has
   * nil maps replaced by empty ones.
   */
  lemma MapRequestMeans(path: string, i: nat, r: YamlRequest)
    ensures IsBlank(r.verb) ==> MapRequest(path, i, r) == Err(InvalidField(path, FieldPrefix(i) + ".method", "method is required"))
    ensures !IsBlank(r.verb) && IsBlank(r.url) ==>
      MapRequest(path, i, r) == Err(InvalidField(path, FieldPrefix(i) + ".url", "url is required"))
    ensures MapRequest(path, i, r).Ok? ==>
      var q := MapRequest(path, i, r).value;
      q.name == r.name && q.verb == ParseMethod(r.verb).value && q.url == r.url
      && q.headers == Some(r.headers.GetOr(map[]))
      && q.body == SelectBody(r.json, r.form, r.raw, r.contentType)
      && q.assertions.status == r.assertions.status && q.assertions.maxLatencyMs == r.assertions.maxMs
      && q.assertions.jsonPath == MapJsonPath(r.assertions.jsonPath).GetOr(map[])
      && q.extract == r.extract.GetOr(map[])
  {
  }

  /** The first `n` results of the request loop, which stops at its first failure: all requests, or that failure. */
  function Collect(rs: seq<Result<RequestSpec, Error>>, n: nat): (r: Result<seq<RequestSpec>, Error>)
    requires n <= |rs|
    ensures r.Ok? ==> |r.value| == n
  {
    if n == 0 then Ok([])
    else
      match Collect(rs, n - 1)
      case Err(e) => Err(e)
      case Ok(vs) =>
        match rs[n - 1]
        case Err(e) => Err(e)
        case Ok(v) => Ok(vs + [v])
  }

  /** One more step of the loop. */
  lemma CollectStep(rs: seq<Result<RequestSpec, Error>>, n: nat)
    requires n < |rs| && Collect(rs, n).Ok?
    ensures Collect(rs, n + 1) == if rs[n].Ok? then Ok(Collect(rs, n).value + [rs[n].value]) else Err(rs[n].error)
  {
  }

  /** Once the loop has failed it stays failed with the same error. */
  lemma {:induction false} CollectErrStays(rs: seq<Result<RequestSpec, Error>>, m: nat, n: nat)
    requires m <= n <= |rs|
    requires Collect(rs, m).Err?
    ensures Collect(rs, n) == Collect(rs, m)
    decreases n
  {
    if n > m {
      CollectErrStays(rs, m, n - 1);
    }
  }

  /** Success means every step succeeded, each value in its own position. */
  lemma {:induction false} CollectOk(rs: seq<Result<RequestSpec, Error>>, n: nat)
    requires n <= |rs|
    ensures Collect(rs, n).Ok? <==> forall i :: 0 <= i < n ==> rs[i].Ok?
    ensures Collect(rs, n).Ok? ==> forall i :: 0 <= i < n ==> Collect(rs, n).value[i] == rs[i].value
    decreases n
  {
    if n > 0 {
      CollectOk(rs, n - 1);
    }
  }

  /** A failure is the error of the first step that failed. */
  lemma {:induction false} CollectFirstError(rs: seq<Result<RequestSpec, Error>>, n: nat)
    requires n <= |rs|
    requires Collect(rs, n).Err?
    ensures exists i :: (0 <= i < n && rs[i].Err? && Collect(rs, n).error == rs[i].error
                         && forall j :: 0 <= j < i ==> rs[j].Ok?)
    decreases n
  {
    CollectOk(rs, n - 1);
    if Collect(rs, n - 1).Err? {
      CollectFirstError(rs, n - 1);
    } else {
      assert rs[n - 1].Err?;
    }
  }

  /** The first `n` requests, each mapped on its own with its position. */
  function Steps(path: string, reqs: seq<YamlRequest>, n: nat): (rs: seq<Result<RequestSpec, Error>>)
    requires n <= |reqs|
    ensures |rs| == n
  {
    if n == 0 then [] else Steps(path, reqs, n - 1) + [MapRequest(path, n - 1, reqs[n - 1])]
  }

  lemma {:induction false} StepsAt(path: string, reqs: seq<YamlRequest>, n: nat, i: nat)
    requires i < n <= |reqs|
    ensures Steps(path, reqs, n)[i] == MapRequest(path, i, reqs[i])
    decreases n
  {
    if i < n - 1 {
      StepsAt(path, reqs, n - 1, i);
    }
  }

  lemma StepsAll(path: string, reqs: seq<YamlRequest>)
    ensures forall i :: 0 <= i < |reqs| ==> Steps(path, reqs, |reqs|)[i] == MapRequest(path, i, reqs[i])
  {
    forall i | 0 <= i < |reqs| {
      StepsAt(path, reqs, |reqs|, i);
    }
  }

  /** `MapCollection`: a named collection whose requests all map. */
  function MappedCollection(path: string, yc: YamlCollection): (r: Result<Collection, Error>)
    ensures r.Err? ==> KindOf(r.error) == Some(InvalidConfig)
    ensures IsBlank(yc.name) ==> r == Err(InvalidField(path, "name", "collection name is required"))
    ensures r.Ok? ==> r.value.name == yc.name && r.value.vars == yc.vars.GetOr(map[])
    ensures r.Ok? ==> |r.value.requests| == |yc.requests|
  {
    if TrimSpace(yc.name) == "" then Err(InvalidField(path, "name", "collection name is required"))
    else
      var rs := Steps(path, yc.requests, |yc.requests|);
      match Collect(rs, |rs|)
      case Err(e) =>
        CollectFirstError(rs, |rs|);
        StepsAll(path, yc.requests);
        Err(e)
      case Ok(qs) => Ok(Collection(yc.name, yc.vars.GetOr(map[]), qs))
  }

  /**
   * Every request of a mapped collection uses one of the seven methods, has a
   * non-blank URL and a header map, and a raw body only when its text is non-blank.
   */
  lemma MappedCollectionValid(path: string, yc: YamlCollection)
    requires MappedCollection(path, yc).Ok?
    ensures forall i :: 0 <= i < |yc.requests| ==>
      var q := MappedCollection(path, yc).value.requests[i];
      q.verb in Methods && !IsBlank(q.url) && q.headers.Some?
      && (q.body.kind == BodyRaw ==> !IsBlank(q.body.raw))
  {
    var rs := Steps(path, yc.requests, |yc.requests|);
    CollectOk(rs, |rs|);
    StepsAll(path, yc.requests);
  }

  /** A named collection is mapped by collecting the results of its requests. */
  lemma MappedCollectionSteps(path: string, yc: YamlCollection)
    requires TrimSpace(yc.name) != ""
    ensures var rs := Steps(path, yc.requests, |yc.requests|);
      MappedCollection(path, yc) ==
        if Collect(rs, |rs|).Ok? then Ok(Collection(yc.name, yc.vars.GetOr(map[]), Collect(rs, |rs|).value))
        else Err(Collect(rs, |rs|).error)
  {
  }

  /** A failure of a named collection is the error of its first invalid request. */
  lemma MappedCollectionFirstError(path: string, yc: YamlCollection)
    requires !IsBlank(yc.name) && MappedCollection(path, yc).Err?
    ensures exists i :: (0 <= i < |yc.requests| && MapRequest(path, i, yc.requests[i]).Err?
                         && MappedCollection(path, yc).error == MapRequest(path, i, yc.requests[i]).error
                         && forall j :: 0 <= j < i ==> MapRequest(path, j, yc.requests[j]).Ok?)
  {
    var rs := Steps(path, yc.requests, |yc.requests|);
    CollectFirstError(rs, |rs|);
    StepsAll(path, yc.requests);
  }

  /** The mapping loop of `MapCollection`, stopping at the first invalid request. */
  method MapCollection(path: string, yc: YamlCollection) returns (r: Result<Collection, Error>)
    ensures r == MappedCollection(path, yc)
  {
    if TrimSpace(yc.name) == "" {
      return Err(InvalidField(path, "name", "collection name is required"));
    }
    var requests := MapRequests(path, yc.requests);
    MappedCollectionSteps(path, yc);
    if requests.Err? {
      return Err(requests.error);
    }
    r := Ok(Collection(yc.name, yc.vars.GetOr(map[]), requests.value));
  }

  /** The loop of `MapCollection` over the requests, stopping at the first that does not map. */
  method MapRequests(path: string, reqs: seq<YamlRequest>) returns (r: Result<seq<RequestSpec>, Error>)
    ensures r == Collect(Steps(path, reqs, |reqs|), |reqs|)
  {
    ghost var rs := Steps(path, reqs, |reqs|);
    var requests: seq<RequestSpec> := [];
    var i := 0;
    while i < |reqs|
      invariant 0 <= i <= |reqs|
      invariant Collect(rs, i) == Ok(requests)
    {
      var q := MapRequest(path, i, reqs[i]);
      StepsAt(path, reqs, |reqs|, i);
      CollectStep(rs, i);
      if q.Err? {
        CollectErrStays(rs, i + 1, |rs|);
        return Err(q.error);
      }
      requests := requests + [q.value];
      i := i + 1;
    }
    return Ok(requests);
  }

  /** `MapEnvironment`: never fails, is named after the file, and has nil vars made empty. */
  function MapEnvironment(path: string, env: YamlEnvironment): (r: Result<Environment, Error>)
    ensures r.Ok?
    ensures r.value.vars == env.vars.GetOr(map[])
    ensures r.value.name == Paths.Stem(path)
    ensures r.value.name == "/" || Paths.Separator !in r.value.name
  {
    Paths.StemIsFileName(path);
    Ok(Environment(Paths.Stem(path), env.vars.GetOr(map[])))
  }
}
