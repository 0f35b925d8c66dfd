/**
 * `yamlcollection.LoadCollection` and its validation: the file read, decoded
 * and mapped, with the request name and URL required before the method is
 * parsed, and only `exists` taken from each JSONPath check. Reading a file and
 * decoding YAML are functions passed in.
 */
module YamlCollection {
  import opened Common
  import opened Text
  import opened Errors
  import opened Json
  import opened Domain
  import ConfigMapper

  /** A JSONPath check of the document: this loader reads `exists` only. */
  datatype YamlJsonPathAssertion = YamlJsonPathAssertion(mustExist: bool)

  datatype YamlAssertions = YamlAssertions(
    status: Option<int>,
    maxMs: Option<int>,
    jsonPath: Option<map<string, YamlJsonPathAssertion>>)

  datatype YamlRequest = YamlRequest(
    name: string,
    verb: string,
    url: string,
    headers: Option<StringMap>,
    json: Option<map<string, Json>>,
    form: Option<StringMap>,
    raw: string,
    contentType: string,
    assertions: YamlAssertions,
    extract: Option<StringMap>)

  datatype YamlCollection = YamlCollection(name: string, vars: Option<StringMap>, requests: seq<YamlRequest>)

  /** `invalidField`: an invalid-config error of `yamlcollection.validate` with the field in its message. */
  function InvalidField(path: string, field: string, msg: string): (r: Error)
    ensures KindOf(r) == Some(InvalidConfig)
  {
    OpErrorKind("yamlcollection.validate", InvalidConfig, path, Some(Leaf("field " + field + ": " + msg)), InvalidConfig);
    OpError("yamlcollection.validate", InvalidConfig, path, Some(Leaf("field " + field + ": " + msg)))
  }

  /** Unlike the config mapper's, this error does not wrap `ErrInvalidConfig`. */
  lemma InvalidFieldNotWrapped(path: string, field: string, msg: string)
    ensures ErrInvalidConfig !in Chain(InvalidField(path, field, msg))
  {
    var inner := Leaf("field " + field + ": " + msg);
    assert Chain(inner) == [inner];
    assert inner != ErrInvalidConfig by {
      assert inner.text[0] == 'f';
    }
    assert Chain(InvalidField(path, field, msg)) == [InvalidField(path, field, msg), inner];
  }

  /** One check of the document: `exists` kept, every other check unset. */
  function ToAssertion(v: YamlJsonPathAssertion): (a: JsonPathAssertion)
    ensures a.mustExist == v.mustExist
    ensures a.eq.None? && a.contains.None? && a.matches.None? && a.gt.None? && a.lt.None?
  {
    JsonPathAssertion(v.mustExist, None, None, None, None, None)
  }

  /** `mapJSONPath`: nil stays nil, otherwise every key keeps its converted check. */
  function MapJsonPath(m: Option<map<string, YamlJsonPathAssertion>>): (r: Option<map<string, JsonPathAssertion>>)
    ensures r.Some? <==> m.Some?
    ensures r.Some? ==> r.value.Keys == m.value.Keys
    ensures r.Some? ==> forall k :: k in r.value ==> r.value[k] == ToAssertion(m.value[k])
  {
    if m.None? then None else Some(map k | k in m.value :: ToAssertion(m.value[k]))
  }

  /** The `for k, v := range in` loop of `mapJSONPath`. */
  method MapJsonPathEach(m: Option<map<string, YamlJsonPathAssertion>>) returns (r: Option<map<string, JsonPathAssertion>>)
    ensures r == MapJsonPath(m)
  {
    if m.None? {
      return None;
    }
    var out: map<string, JsonPathAssertion> := map[];
    var todo := m.value.Keys;
    while todo != {}
      invariant todo <= m.value.Keys
      invariant out.Keys == m.value.Keys - todo
      invariant forall k :: k in out ==> out[k] == ToAssertion(m.value[k])
      decreases todo
    {
      var k :| k in todo;
      out := out[k := ToAssertion(m.value[k])];
      todo := todo - {k};
    }
    r := Some(out);
    assert out == MapJsonPath(m).value;
  }

  /** One request of the loop: name required, then URL required, then the method parsed. */
  function MapRequest(path: string, i: nat, r: YamlRequest): (q: Result<RequestSpec, Error>)
    ensures q.Ok? <==> !IsBlank(r.name) && !IsBlank(r.url) && ConfigMapper.ParseMethod(r.verb).Ok?
    ensures q.Err? ==> KindOf(q.error) == Some(InvalidConfig)
  {
    var prefix := ConfigMapper.FieldPrefix(i);
    if TrimSpace(r.name) == "" then Err(InvalidField(path, prefix + ".name", "request name is required"))
    else if TrimSpace(r.url) == "" then Err(InvalidField(path, prefix + ".url", "request url is required"))
    else
      match ConfigMapper.ParseMethod(r.verb)
      case Err(e) => Err(InvalidField(path, prefix + ".method", Message(e)))
      case Ok(verb) =>
        Ok(RequestSpec(
          r.name, verb, r.url, Some(r.headers.GetOr(map[])),
          ConfigMapper.SelectBody(r.json, r.form, r.raw, r.contentType),
          AssertionsSpec(r.assertions.status, r.assertions.maxMs, MapJsonPath(r.assertions.jsonPath).GetOr(map[])),
          r.extract.GetOr(map[])))
  }

  /**
   * A blank name is reported before a blank URL, and both before the method;
   * an accepted request keeps its name and URL, takes the parsed method and the
   * selected body, and has nil maps replaced by empty ones.
   */
  lemma MapRequestMeans(path: string, i: nat, r: YamlRequest)
    ensures IsBlank(r.name) ==>
      MapRequest(path, i, r) == Err(InvalidField(path, ConfigMapper.FieldPrefix(i) + ".name", "request name is required"))
    ensures !IsBlank(r.name) && IsBlank(r.url) ==>
      MapRequest(path, i, r) == Err(InvalidField(path, ConfigMapper.FieldPrefix(i) + ".url", "request url is required"))
    ensures !IsBlank(r.name) && !IsBlank(r.url) && ConfigMapper.ParseMethod(r.verb).Err? ==>
      MapRequest(path, i, r) ==
        Err(InvalidField(path, ConfigMapper.FieldPrefix(i) + ".method", Message(ConfigMapper.ParseMethod(r.verb).error)))
    ensures MapRequest(path, i, r).Ok? ==>
      var q := MapRequest(path, i, r).value;
      q.name == r.name && q.verb == ConfigMapper.ParseMethod(r.verb).value && q.url == r.url
      && q.headers == Some(r.headers.GetOr(map[]))
      && q.body == ConfigMapper.SelectBody(r.json, r.form, r.raw, r.contentType)
      && q.assertions.status == r.assertions.status && q.assertions.maxLatencyMs == r.assertions.maxMs
      && q.assertions.jsonPath == MapJsonPath(r.assertions.jsonPath).GetOr(map[])
      && q.extract == r.extract.GetOr(map[])
  {
  }

  /** The first `n` requests, each mapped on its own with its position. */
  function Steps(path: string, reqs: seq<YamlRequest>, n: nat): (rs: seq<Result<RequestSpec, Error>>)
    requires n <= |reqs|
    ensures |rs| == n
  {
    if n == 0 then [] else Steps(path, reqs, n - 1) + [MapRequest(path, n - 1, reqs[n - 1])]
  }

  lemma {:induction false} StepsAt(path: string, reqs: seq<YamlRequest>, n: nat, i: nat)
    requires i < n <= |reqs|
    ensures Steps(path, reqs, n)[i] == MapRequest(path, i, reqs[i])
    decreases n
  {
    if i < n - 1 {
      StepsAt(path, reqs, n - 1, i);
    }
  }

  lemma StepsAll(path: string, reqs: seq<YamlRequest>)
    ensures forall i :: 0 <= i < |reqs| ==> Steps(path, reqs, |reqs|)[i] == MapRequest(path, i, reqs[i])
  {
    forall i | 0 <= i < |reqs| {
      StepsAt(path, reqs, |reqs|, i);
    }
  }

  /** `mapAndValidate`: a named collection whose requests all map. */
  function MappedCollection(path: string, yc: YamlCollection): (r: Result<Collection, Error>)
    ensures r.Err? ==> KindOf(r.error) == Some(InvalidConfig)
    ensures IsBlank(yc.name) ==> r == Err(InvalidField(path, "name", "collection name is required"))
    ensures r.Ok? ==> r.value.name == yc.name && r.value.vars == yc.vars.GetOr(map[])
    ensures r.Ok? ==> |r.value.requests| == |yc.requests|
  {
    if TrimSpace(yc.name) == "" then Err(InvalidField(path, "name", "collection name is required"))
    else
      var rs := Steps(path, yc.requests, |yc.requests|);
      match ConfigMapper.Collect(rs, |rs|)
      case Err(e) =>
        ConfigMapper.CollectFirstError(rs, |rs|);
        StepsAll(path, yc.requests);
        Err(e)
      case Ok(qs) => Ok(Collection(yc.name, yc.vars.GetOr(map[]), qs))
  }

  /** A mapped collection keeps its requests' count and order: request `i` is the mapping of entry `i`. */
  lemma MappedCollectionOrder(path: string, yc: YamlCollection)
    requires MappedCollection(path, yc).Ok?
    ensures forall i :: 0 <= i < |yc.requests| ==>
      MapRequest(path, i, yc.requests[i]).Ok?
      && MappedCollection(path, yc).value.requests[i] == MapRequest(path, i, yc.requests[i]).value
  {
    var rs := Steps(path, yc.requests, |yc.requests|);
    ConfigMapper.CollectOk(rs, |rs|);
    StepsAll(path, yc.requests);
  }

  /** A failure of a named collection is the error of its first invalid request. */
  lemma MappedCollectionFirstError(path: string, yc: YamlCollection)
    requires !IsBlank(yc.name) && MappedCollection(path, yc).Err?
    ensures exists i :: (0 <= i < |yc.requests| && MapRequest(path, i, yc.requests[i]).Err?
                         && MappedCollection(path, yc).error == MapRequest(path, i, yc.requests[i]).error
                         && forall j :: 0 <= j < i ==> MapRequest(path, j, yc.requests[j]).Ok?)
  {
    var rs := Steps(path, yc.requests, |yc.requests|);
    ConfigMapper.CollectFirstError(rs, |rs|);
    StepsAll(path, yc.requests);
  }

  lemma MappedCollectionSteps(path: string, yc: YamlCollection)
    requires TrimSpace(yc.name) != ""
    ensures var rs := Steps(path, yc.requests, |yc.requests|);
      MappedCollection(path, yc) ==
        if ConfigMapper.Collect(rs, |rs|).Ok? then Ok(Collection(yc.name, yc.vars.GetOr(map[]), ConfigMapper.Collect(rs, |rs|).value))
        else Err(ConfigMapper.Collect(rs, |rs|).error)
  {
  }

  /** The validation loop of `mapAndValidate`, stopping at the first invalid request. */
  method MapAndValidate(path: string, yc: YamlCollection) returns (r: Result<Collection, Error>)
    ensures r == MappedCollection(path, yc)
  {
    if TrimSpace(yc.name) == "" {
      return Err(InvalidField(path, "name", "collection name is required"));
    }
    var requests := MapRequests(path, yc.requests);
    MappedCollectionSteps(path, yc);
    if requests.Err? {
      return Err(requests.error);
    }
    r := Ok(Collection(yc.name, yc.vars.GetOr(map[]), requests.value));
  }

  /** The loop of `mapAndValidate` over the requests, stopping at the first that does not map. */
  method MapRequests(path: string, reqs: seq<YamlRequest>) returns (r: Result<seq<RequestSpec>, Error>)
    ensures r == ConfigMapper.Collect(Steps(path, reqs, |reqs|), |reqs|)
  {
    ghost var rs := Steps(path, reqs, |reqs|);
    var requests: seq<RequestSpec> := [];
    var i := 0;
    while i < |reqs|
      invariant 0 <= i <= |reqs|
      invariant ConfigMapper.Collect(rs, i) == Ok(requests)
    {
      var q := MapRequest(path, i, reqs[i]);
      StepsAt(path, reqs, |reqs|, i);
      ConfigMapper.CollectStep(rs, i);
      if q.Err? {
        ConfigMapper.CollectErrStays(rs, i + 1, |rs|);
        return Err(q.error);
      }
      requests := requests + [q.value];
      i := i + 1;
    }
    return Ok(requests);
  }

  /** The file system and the YAML decoder, as `LoadCollection` uses them. */
  datatype Source = Source(
    readFile: string -> Result<seq<byte>, Error>,
    decode: seq<byte> -> Result<YamlCollection, Error>)

  /** `LoadCollection`: read, decode, then map and validate. */
  function LoadCollection(src: Source, path: string): Result<Collection, Error> {
    match src.readFile(path)
    case Err(e) => Err(OpError("yamlcollection.load", NotFound, path, Some(e)))
    case Ok(b) =>
      match src.decode(b)
      case Err(e) => Err(OpError("yamlcollection.load", InvalidConfig, path, Some(e)))
      case Ok(yc) => MappedCollection(path, yc)
  }

  /**
   * A file that cannot be read is not found, a document that does not decode
   * is invalid config, and so is one that does not validate; otherwise the
   * collection is the mapped document.
   */
  lemma LoadCollectionMeans(src: Source, path: string)
    ensures src.readFile(path).Err? ==> KindOf(LoadCollection(src, path).error) == Some(NotFound)
    ensures src.readFile(path).Ok? && src.decode(src.readFile(path).value).Err? ==>
      KindOf(LoadCollection(src, path).error) == Some(InvalidConfig)
    ensures src.readFile(path).Ok? && src.decode(src.readFile(path).value).Ok? ==>
      LoadCollection(src, path) == MappedCollection(path, src.decode(src.readFile(path).value).value)
  {
    match src.readFile(path)
    case Err(e) =>
      OpErrorKind("yamlcollection.load", NotFound, path, Some(e), NotFound);
    case Ok(b) =>
      match src.decode(b)
      case Err(e) =>
        OpErrorKind("yamlcollection.load", InvalidConfig, path, Some(e), InvalidConfig);
      case Ok(yc) =>
  }
}
