/**
 * The HTTP runner: resolves a request's templates, shapes the HTTP request
 * (header map, body, Content-Type defaulting), sends it, and records the
 * response with a bounded body. Resolution and build failures are Go errors;
 * a transport or read failure is recorded in the result instead.
 */
module HttpRunner {
  import opened Common
  import opened Text
  import opened Errors
  import opened Json
  import opened Domain
  import opened Resolver
  import opened HttpModel

  const DefaultMaxBodyBytes: int := 256 * 1024

  datatype Runner = Runner(maxBodyBytes: int, resolver: VarResolver)

  datatype RunnerOption = WithMaxBodyBytes(n: int) | WithResolver(vr: VarResolver)

  function ApplyOption(r: Runner, opt: RunnerOption): (out: Runner)
    ensures opt.WithMaxBodyBytes? ==> out == r.(maxBodyBytes := opt.n)
    ensures opt.WithResolver? ==> out == r.(resolver := opt.vr)
  {
    match opt
    case WithMaxBodyBytes(n) => r.(maxBodyBytes := n)
    case WithResolver(vr) => r.(resolver := vr)
  }

  function Configured(r: Runner, opts: seq<RunnerOption>): Runner
    decreases |opts|
  {
    if opts == [] then r else Configured(ApplyOption(r, opts[0]), opts[1..])
  }

  /** Without a body-size option the limit stays; without a resolver option the resolver stays. */
  lemma {:induction false} ConfiguredKeeps(r: Runner, opts: seq<RunnerOption>)
    ensures (forall i :: 0 <= i < |opts| ==> opts[i].WithResolver?) ==> Configured(r, opts).maxBodyBytes == r.maxBodyBytes
    ensures (forall i :: 0 <= i < |opts| ==> opts[i].WithMaxBodyBytes?) ==> Configured(r, opts).resolver == r.resolver
    decreases |opts|
  {
    if opts != [] {
      ConfiguredKeeps(ApplyOption(r, opts[0]), opts[1..]);
    }
  }

  /** `New`: 256 KiB and `fallback` for `domain.NewVarResolver()`, then the options in order. */
  method New(fallback: VarResolver, opts: seq<RunnerOption>) returns (r: Runner)
    ensures r == Configured(Runner(DefaultMaxBodyBytes, fallback), opts)
  {
    r := Runner(DefaultMaxBodyBytes, fallback);
    for i := 0 to |opts|
      invariant Configured(Runner(DefaultMaxBodyBytes, fallback), opts) == Configured(r, opts[i..])
    {
      assert opts[i..][1..] == opts[i + 1..];
      r := ApplyOption(r, opts[i]);
    }
  }

  // ---- readBounded ----

  datatype Bounded = Bounded(body: seq<byte>, truncated: bool)

  /** `readBounded`: read one byte past the limit to learn whether the body is longer. */
  function ReadBounded(s: Stream, maxBytes: nat): Result<Bounded, Error> {
    match ReadAtMost(s, maxBytes + 1)
    case Err(e) => Err(e)
    case Ok(b) => if |b| > maxBytes then Ok(Bounded(b[..maxBytes], true)) else Ok(Bounded(b, false))
  }

  /**
   * The body kept is at most `maxBytes` long; it is truncated exactly when the
   * stream had more, and is then the first `maxBytes` bytes, else all of them.
   * A read error counts only when it comes before the limit.
   */
  lemma ReadBoundedMeans(s: Stream, maxBytes: nat)
    ensures var r := ReadBounded(s, maxBytes);
      (r.Err? <==> |s.data| <= maxBytes && s.failure.Some?)
      && (r.Ok? ==> |r.value.body| <= maxBytes
                    && (r.value.truncated <==> |s.data| > maxBytes)
                    && (r.value.truncated ==> r.value.body == s.data[..maxBytes])
                    && (!r.value.truncated ==> r.value.body == s.data))
  {
    var r := ReadAtMost(s, maxBytes + 1);
    if r.Ok? && |r.value| > maxBytes {
      assert r.value[..maxBytes] == s.data[..maxBytes];
    }
  }

  /** The largest `int64`. */
  const MaxInt64: int := 0x7fff_ffff_ffff_ffff

  /** `int64` addition, wrapping around past either end as Go's does. */
  function AddInt64(a: int, b: int): (r: int)
    requires -MaxInt64 - 1 <= a <= MaxInt64 && -MaxInt64 - 1 <= b <= MaxInt64
    ensures -MaxInt64 - 1 <= r <= MaxInt64
    ensures r == a + b || r == a + b - 0x1_0000_0000_0000_0000 || r == a + b + 0x1_0000_0000_0000_0000
  {
    var sum := a + b;
    if sum > MaxInt64 then sum - 0x1_0000_0000_0000_0000
    else if sum < -MaxInt64 - 1 then sum + 0x1_0000_0000_0000_0000
    else sum
  }

  /**
   * `readBounded` as written: the limit `maxBytes+1` is an `int64` sum, and
   * `io.LimitReader` reads nothing at all under a limit that is not positive.
   */
  function ReadBoundedAsWritten(s: Stream, maxBytes: nat): (r: Result<Bounded, Error>)
    requires maxBytes <= MaxInt64
    ensures r.Ok? ==> |r.value.body| <= maxBytes && r.value.body <= s.data
    ensures r.Ok? && r.value.truncated ==> |r.value.body| == maxBytes
  {
    var limit := AddInt64(maxBytes, 1);
    var read := if limit <= 0 then Ok([]) else ReadAtMost(s, limit);
    match read
    case Err(e) => Err(e)
    case Ok(b) => if |b| > maxBytes then Ok(Bounded(b[..maxBytes], true)) else Ok(Bounded(b, false))
  }

  /** Below the largest `int64` the sum does not wrap, and the code as written reads as intended. */
  lemma ReadBoundedAsWrittenAgrees(s: Stream, maxBytes: nat)
    requires maxBytes < MaxInt64
    ensures ReadBoundedAsWritten(s, maxBytes) == ReadBounded(s, maxBytes)
  {
  }

  /**
   * At the largest `int64` the limit wraps to the smallest: nothing is read,
   * and the body comes back empty and not truncated whatever the stream holds,
   * a failing stream included.
   */
  lemma ReadBoundedAtMaxInt64(s: Stream)
    ensures ReadBoundedAsWritten(s, MaxInt64) == Ok(Bounded([], false))
  {
    assert AddInt64(MaxInt64, 1) == -MaxInt64 - 1;
  }

  /** A one-byte body under the largest limit: the code as written records no body, the intended reading all of it. */
  lemma ReadBoundedWrapLosesBody()
    ensures ReadBoundedAsWritten(Stream([7], None), MaxInt64) == Ok(Bounded([], false))
    ensures ReadBounded(Stream([7], None), MaxInt64) == Ok(Bounded([7], false))
  {
    ReadBoundedAtMaxInt64(Stream([7], None));
    ReadBoundedMeans(Stream([7], None), MaxInt64);
  }

  // ---- buildHTTPRequest ----

  /** The body bytes and the header map once the body has been chosen. */
  datatype Payload = Payload(body: seq<byte>, header: Header)

  /** An explicit Content-Type wins; otherwise `fallback` applies only where the headers set none. */
  function DefaultType(h: Header, explicit: string, fallback: string): Header {
    if explicit != "" then SetHeader(h, ContentType, explicit)
    else if GetHeader(h, ContentType) == "" then SetHeader(h, ContentType, fallback)
    else h
  }

  /** A build failure: an invalid-config error of operation `op` wrapping `e`. */
  function BuildError(op: string, e: Error): (r: Error)
    ensures KindOf(r) == Some(InvalidConfig)
  {
    OpErrorKind(op, InvalidConfig, "", Some(e), InvalidConfig);
    OpError(op, InvalidConfig, "", Some(e))
  }

  /** The `switch` on the body type of `buildHTTPRequest`. */
  function Payloads(lib: JsonLib, net: Net, b: BodySpec, h: Header): Result<Payload, Error> {
    match b.kind
    case BodyJson =>
      if b.json.None? then Ok(Payload([], h))
      else
        (match lib.marshal(Obj(b.json.value))
        case Err(e) => Err(BuildError("httprunner.build.json", e))
        case Ok(text) => Ok(Payload(Utf8(text), DefaultType(h, b.contentType, "application/json"))))
    case BodyForm =>
      if b.form.None? then Ok(Payload([], h))
      else Ok(Payload(Utf8(net.encodeForm(b.form.value)), DefaultType(h, b.contentType, "application/x-www-form-urlencoded")))
    case BodyRaw =>
      if b.raw == "" then Ok(Payload([], h))
      else
        Ok(Payload(Utf8(b.raw),
          if b.contentType != "" && GetHeader(h, ContentType) == "" then SetHeader(h, ContentType, b.contentType) else h))
    case _ => Ok(Payload([], h))
  }

  /** `buildHTTPRequest`, with the request's headers set in `order`. */
  function Prepared(lib: JsonLib, net: Net, req: RequestSpec, order: seq<string>): Result<Request, Error>
    requires forall i :: 0 <= i < |order| ==> order[i] in req.headers.GetOr(map[])
  {
    var u := TrimSpace(req.url);
    if u == "" then Err(BuildError("httprunner.build", Leaf("empty url")))
    else
      match Payloads(lib, net, req.body, SetAll(map[], req.headers.GetOr(map[]), order))
      case Err(e) => Err(e)
      case Ok(p) =>
        match net.newRequest(req.verb, u)
        case Some(e) => Err(BuildError("httprunner.build", e))
        case None => Ok(Request(req.verb, u, p.header, p.body))
  }

  /**
   * The Content-Type sent: for JSON and form bodies the body's own type if it
   * has one, else the header's if set, else the default; for a non-empty raw
   * body the header's if set, else the body's type; otherwise the header's.
   */
  lemma PayloadContentType(lib: JsonLib, net: Net, b: BodySpec, h: Header)
    requires Payloads(lib, net, b, h).Ok?
    ensures var got := GetHeader(Payloads(lib, net, b, h).value.header, ContentType);
            var given := GetHeader(h, ContentType);
      ((b.kind == BodyJson && b.json.Some?) || (b.kind == BodyForm && b.form.Some?) ==>
         got == if b.contentType != "" then b.contentType
                else if given != "" then given
                else if b.kind == BodyJson then "application/json" else "application/x-www-form-urlencoded")
      && (b.kind == BodyRaw && b.raw != "" ==> got == if given != "" then given else b.contentType)
      && ((!(b.kind in {BodyJson, BodyForm, BodyRaw}) || (b.kind == BodyJson && b.json.None?)
           || (b.kind == BodyForm && b.form.None?) || (b.kind == BodyRaw && b.raw == "")) ==> got == given)
  {
    GetAfterSet(h, ContentType, b.contentType, ContentType);
    GetAfterSet(h, ContentType, "application/json", ContentType);
    GetAfterSet(h, ContentType, "application/x-www-form-urlencoded", ContentType);
  }

  /**
   * A blank URL is an invalid-config error; a built request goes to the
   * trimmed URL with the spec's method, and carries no body when the body
   * type gives nothing to send.
   */
  lemma PreparedMeans(lib: JsonLib, net: Net, req: RequestSpec, order: seq<string>)
    requires forall i :: 0 <= i < |order| ==> order[i] in req.headers.GetOr(map[])
    ensures var r := Prepared(lib, net, req, order);
      (IsBlank(req.url) ==> r.Err? && KindOf(r.error) == Some(InvalidConfig))
      && (r.Err? ==> KindOf(r.error) == Some(InvalidConfig))
      && (r.Ok? ==> r.value.url == TrimSpace(req.url) && r.value.verb == req.verb
                    && net.newRequest(req.verb, TrimSpace(req.url)).None?)
      && ((r.Ok? && (req.body.kind == BodyRaw ==> req.body.raw == "") && req.body.kind != BodyForm
           && req.body.kind != BodyJson) ==> r.value.body == [])
  {
  }

  /** The `for k, v := range req.Headers { headers.Set(k, v) }` loop and the body switch. */
  method BuildHttpRequest(lib: JsonLib, net: Net, req: RequestSpec) returns (r: Result<Request, Error>, ghost order: seq<string>)
    ensures IsEnumeration(order, req.headers.GetOr(map[]).Keys)
    ensures r == Prepared(lib, net, req, order)
  {
    order := [];
    var u := TrimSpace(req.url);
    var headers: Header;
    headers, order := SetEach(map[], req.headers.GetOr(map[]));
    if u == "" {
      return Err(BuildError("httprunner.build", Leaf("empty url"))), order;
    }
    var payload := Payloads(lib, net, req.body, headers);
    if payload.Err? {
      return Err(payload.error), order;
    }
    var failed := net.newRequest(req.verb, u);
    if failed.Some? {
      return Err(BuildError("httprunner.build", failed.value)), order;
    }
    r := Ok(Request(req.verb, u, payload.value.header, payload.value.body));
  }

  // ---- Run ----

  /** `cloneHeaders`: the same names and values in a fresh map. */
  method CloneHeaders(h: Header) returns (out: Header)
    ensures out == h
  {
    out := map[];
    var todo := h.Keys;
    while todo != {}
      invariant todo <= h.Keys
      invariant out.Keys == h.Keys - todo
      invariant forall k :: k in out ==> out[k] == h[k]
      decreases todo
    {
      var k :| k in todo;
      out := out[k := h[k]];
      todo := todo - {k};
    }
  }

  /** The result before anything is sent: the resolved name, method and URL, everything else empty. */
  function Blank(spec: RequestSpec): RequestResult {
    RequestResult(spec.name, spec.verb, spec.url, 0, 0, [], [], map[], EmptySnapshot, None)
  }

  /**
   * What is recorded once a request has been built: the latency of the call,
   * then on a transport error only that error, otherwise the status and
   * headers and either the bounded body or the read error.
   */
  function Exchange(runner: Runner, net: Net, runError: Error -> RunError, spec: RequestSpec,
                    httpReq: Request, latencyMs: int): RequestResult
    requires net.send(httpReq).Ok? ==> runner.maxBodyBytes >= 0
  {
    var sent := Blank(spec).(latencyMs := latencyMs);
    match net.send(httpReq)
    case Err(e) => sent.(error := Some(runError(e)))
    case Ok(resp) =>
      var got := sent.(statusCode := resp.status, response := EmptySnapshot.(headers := resp.header));
      match ReadBounded(resp.body, runner.maxBodyBytes)
      case Err(e) => got.(error := Some(runError(e)))
      case Ok(bd) => got.(response := got.response.(body := bd.body, truncated := bd.truncated))
  }

  /**
   * A transport or read failure is recorded, not returned; the result always
   * names the resolved request, and a body is recorded only when the whole
   * exchange succeeded.
   */
  lemma ExchangeMeans(runner: Runner, net: Net, runError: Error -> RunError, spec: RequestSpec,
                      httpReq: Request, latencyMs: int)
    requires net.send(httpReq).Ok? ==> runner.maxBodyBytes >= 0
    ensures var out := Exchange(runner, net, runError, spec, httpReq, latencyMs);
      out.name == spec.name && out.verb == spec.verb && out.url == spec.url && out.latencyMs == latencyMs
      && out.assertions == [] && out.extracts == [] && out.extracted == map[]
      && (net.send(httpReq).Err? ==>
            out.error == Some(runError(net.send(httpReq).error)) && out.statusCode == 0 && out.response == EmptySnapshot)
      && (net.send(httpReq).Ok? ==>
            out.statusCode == net.send(httpReq).value.status
            && out.response.headers == net.send(httpReq).value.header
            && (out.error.None? <==> ReadBounded(net.send(httpReq).value.body, runner.maxBodyBytes).Ok?)
            && (out.error.Some? ==> out.response.body == [] && !out.response.truncated)
            && |out.response.body| <= runner.maxBodyBytes)
  {
    if net.send(httpReq).Ok? {
      ReadBoundedMeans(net.send(httpReq).value.body, runner.maxBodyBytes);
    }
  }

  /** How `Run` ends once the request has resolved. */
  function Sent(runner: Runner, lib: JsonLib, net: Net, runError: Error -> RunError, spec: RequestSpec,
                order: seq<string>, latencyMs: int): Result<RequestResult, Error>
    requires forall i :: 0 <= i < |order| ==> order[i] in spec.headers.GetOr(map[])
    requires Prepared(lib, net, spec, order).Ok? && net.send(Prepared(lib, net, spec, order).value).Ok? ==>
               runner.maxBodyBytes >= 0
  {
    match Prepared(lib, net, spec, order)
    case Err(e) => Err(e)
    case Ok(httpReq) => Ok(Exchange(runner, net, runError, spec, httpReq, latencyMs))
  }

  /**
   * `Runner.Run`, for the `calls`-th runtime made through its resolver, with
   * `latencyMs` what the clock measured around `client.Do` and `runError` for
   * `domain.NewRunError`. A runtime, resolution or build failure is returned
   * as an error; otherwise the exchange is recorded.
   */
  method Run(runner: Runner, lib: JsonLib, net: Net, runError: Error -> RunError, req: RequestSpec,
             vars: StringMap, calls: nat, latencyMs: int)
    returns (r: Result<RequestResult, Error>, ghost resolved: Result<RequestSpec, Error>, ghost order: seq<string>)
    requires runner.maxBodyBytes >= 0
    ensures var reading := runner.resolver.sample(calls);
      reading.uuid.Err? ==> r == Err(OpError("vars.builtins.uuid", Execution, "", Some(reading.uuid.error)))
    ensures var reading := runner.resolver.sample(calls);
      reading.uuid.Ok? ==>
        Runtime(vars, Builtins(reading)).RequestOutcome(req, resolved)
        && (resolved.Err? ==> r == Err(resolved.error))
        && (resolved.Ok? ==> IsEnumeration(order, resolved.value.headers.GetOr(map[]).Keys)
                             && r == Sent(runner, lib, net, runError, resolved.value, order, latencyMs))
  {
    order := [];
    resolved := Err(ErrExecution);
    var rt := NewRuntime(vars, runner.resolver.sample(calls));
    if rt.Err? {
      return Err(rt.error), resolved, order;
    }
    var spec := rt.value.ResolveRequest(req);
    resolved := spec;
    if spec.Err? {
      return Err(spec.error), resolved, order;
    }
    var result := Blank(spec.value);
    var httpReq;
    httpReq, order := BuildHttpRequest(lib, net, spec.value);
    if httpReq.Err? {
      return Err(httpReq.error), resolved, order;
    }
    var resp := net.send(httpReq.value);
    result := result.(latencyMs := latencyMs);
    if resp.Err? {
      result := result.(error := Some(runError(resp.error)));
      return Ok(result), resolved, order;
    }
    result := result.(statusCode := resp.value.status);
    var headers := CloneHeaders(resp.value.header);
    result := result.(response := result.response.(headers := headers));
    var bounded := ReadBounded(resp.value.body, runner.maxBodyBytes);
    if bounded.Err? {
      result := result.(error := Some(runError(bounded.error)));
      return Ok(result), resolved, order;
    }
    result := result.(response := result.response.(body := bounded.value.body, truncated := bounded.value.truncated));
    r := Ok(result);
  }
}
