/**
 * The records of the domain package, with the shapes their callers use: a
 * JSONPath assertion carries six optional checks, and a run is an aggregate
 * of per-request results. Go's nil maps are `None` where the core tells nil
 * apart from empty (request headers, JSON and form bodies) and plain maps where
 * it does not.
 */
module Domain {
  import opened Common
  import opened Json
  import opened Errors
  import Text

  /** `domain.HTTPMethod`, a string such as "GET". */
  type Method = string

  const MethodGet: Method := "GET"
  const MethodPost: Method := "POST"
  const MethodPut: Method := "PUT"
  const MethodPatch: Method := "PATCH"
  const MethodDelete: Method := "DELETE"
  const MethodHead: Method := "HEAD"
  const MethodOptions: Method := "OPTIONS"

  /** `domain.BodyType`; any other string is `BodyOther`. */
  datatype BodyType = BodyNone | BodyJson | BodyForm | BodyRaw | BodyOther(name: string)

  datatype BodySpec = BodySpec(
    kind: BodyType,
    json: Option<map<string, Json>>,
    form: Option<StringMap>,
    raw: string,
    contentType: string)

  /** A body of the given type with every other field at its zero value. */
  function BodyOf(kind: BodyType): BodySpec {
    BodySpec(kind, None, None, "", "")
  }

  datatype JsonPathAssertion = JsonPathAssertion(
    mustExist: bool,
    eq: Option<string>,
    contains: Option<string>,
    matches: Option<string>,
    gt: Option<real>,
    lt: Option<real>)

  datatype AssertionsSpec = AssertionsSpec(
    status: Option<int>,
    maxLatencyMs: Option<int>,
    jsonPath: map<string, JsonPathAssertion>)

  /** `domain.ExtractSpec`: variable name to JSONPath expression. */
  type ExtractSpec = StringMap

  datatype RequestSpec = RequestSpec(
    name: string,
    verb: Method,
    url: string,
    headers: Option<StringMap>,
    body: BodySpec,
    assertions: AssertionsSpec,
    extract: ExtractSpec)

  datatype Collection = Collection(name: string, vars: StringMap, requests: seq<RequestSpec>)

  datatype Environment = Environment(name: string, vars: StringMap)

  datatype AssertionResult = AssertionResult(name: string, passed: bool, message: string)

  datatype ExtractResult = ExtractResult(name: string, success: bool, message: string)

  datatype ResponseSnapshot = ResponseSnapshot(
    headers: map<string, seq<string>>,
    body: seq<Text.byte>,
    truncated: bool)

  const EmptySnapshot: ResponseSnapshot := ResponseSnapshot(map[], [], false)

  /** `domain.RunError`, produced from a Go error by `NewRunError` (not part of this model). */
  datatype RunError = RunError(kind: string, message: string)

  datatype RequestResult = RequestResult(
    name: string,
    verb: Method,
    url: string,
    statusCode: int,
    latencyMs: int,
    assertions: seq<AssertionResult>,
    extracts: seq<ExtractResult>,
    extracted: StringMap,
    response: ResponseSnapshot,
    error: Option<RunError>)

  /** `time.Time`, with Go's zero time kept apart from every real instant. */
  datatype Instant = ZeroInstant | Instant(unixNanos: int)

  datatype RunResult = RunResult(
    collectionName: string,
    collectionPath: string,
    environmentName: string,
    startedAt: Instant,
    endedAt: Instant,
    results: seq<RequestResult>)

  datatype MaskingConfig = MaskingConfig(enabled: bool)
  datatype DefaultsConfig = DefaultsConfig(environment: string)
  datatype PathsConfig = PathsConfig(collectionsDir: string, environmentsDir: string, runsDir: string)
  datatype ArtifactsConfig = ArtifactsConfig(saveResponseHeaders: bool, saveResponseBody: bool)
  datatype Config = Config(
    masking: MaskingConfig,
    defaults: DefaultsConfig,
    paths: PathsConfig,
    artifacts: ArtifactsConfig)

  /** `DefaultConfig()`: masking on, environment "dev", the three standard directories. */
  const DefaultConfig: Config := Config(
    MaskingConfig(true),
    DefaultsConfig("dev"),
    PathsConfig("collections", "env", "runs"),
    ArtifactsConfig(true, true))
}
