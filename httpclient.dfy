/**
 * `httpclient.BuildRequest`: the body and default Content-Type chosen from the
 * body variant, the spec's headers copied, and the default applied only where
 * the headers set none.
 */
module HttpClient {
  import opened Common
  import opened Text
  import opened Errors
  import opened Json
  import opened Domain
  import opened HttpModel

  /** The body to send and the Content-Type to default to ("" for none). */
  datatype Choice = Choice(body: seq<byte>, contentType: string)

  /** A build failure: an invalid-config error of `httpclient.build` wrapping `e`. */
  function ClientError(e: Error): (r: Error)
    ensures KindOf(r) == Some(InvalidConfig)
  {
    OpErrorKind("httpclient.build", InvalidConfig, "", Some(e), InvalidConfig);
    OpError("httpclient.build", InvalidConfig, "", Some(e))
  }

  /** The `switch` on the body type. */
  function Chosen(lib: JsonLib, net: Net, b: BodySpec): Result<Choice, Error> {
    match b.kind
    case BodyNone => Ok(Choice([], ""))
    case BodyJson =>
      if b.json.None? then Ok(Choice([], ""))
      else
        (match lib.marshal(Obj(b.json.value))
        case Err(e) => Err(ClientError(e))
        case Ok(text) => Ok(Choice(Utf8(text), "application/json")))
    case BodyForm =>
      if b.form.None? then Ok(Choice([], ""))
      else Ok(Choice(Utf8(net.encodeForm(b.form.value)), "application/x-www-form-urlencoded"))
    case BodyRaw =>
      if TrimSpace(b.raw) != "" then Ok(Choice(Utf8(b.raw), b.contentType)) else Ok(Choice([], ""))
    case BodyOther(_) => Err(ClientError(ErrInvalidRequest))
  }

  /** The request with the copied headers `h`: the default Content-Type applies only where `h` sets none. */
  function Assemble(verb: string, url: string, h: Header, c: Choice): (r: Request)
    ensures r.verb == verb && r.url == url && r.body == c.body
    ensures GetHeader(r.header, ContentType) ==
      if GetHeader(h, ContentType) != "" then GetHeader(h, ContentType) else c.contentType
  {
    GetAfterSet(h, ContentType, c.contentType, ContentType);
    Request(verb, url, if c.contentType != "" && GetHeader(h, ContentType) == "" then SetHeader(h, ContentType, c.contentType) else h, c.body)
  }

  /** `BuildRequest`, with the spec's headers set in `order`. */
  function Built(lib: JsonLib, net: Net, spec: RequestSpec, order: seq<string>): Result<Request, Error>
    requires forall i :: 0 <= i < |order| ==> order[i] in spec.headers.GetOr(map[])
  {
    if TrimSpace(spec.url) == "" then Err(ClientError(ErrInvalidRequest))
    else
      match Chosen(lib, net, spec.body)
      case Err(e) => Err(e)
      case Ok(c) =>
        match net.newRequest(spec.verb, spec.url)
        case Some(e) => Err(ClientError(e))
        case None => Ok(Assemble(spec.verb, spec.url, SetAll(map[], spec.headers.GetOr(map[]), order), c))
  }

  /**
   * Every failure is an invalid-config error, and a blank URL or an unknown
   * body type wraps `ErrInvalidRequest`; a built request keeps the spec's
   * method and URL as written.
   */
  lemma BuiltErrors(lib: JsonLib, net: Net, spec: RequestSpec, order: seq<string>)
    requires forall i :: 0 <= i < |order| ==> order[i] in spec.headers.GetOr(map[])
    ensures Built(lib, net, spec, order).Err? ==> KindOf(Built(lib, net, spec, order).error) == Some(InvalidConfig)
    ensures IsBlank(spec.url) ==> Built(lib, net, spec, order) == Err(ClientError(ErrInvalidRequest))
    ensures !IsBlank(spec.url) && spec.body.kind.BodyOther? ==> Built(lib, net, spec, order) == Err(ClientError(ErrInvalidRequest))
    ensures Built(lib, net, spec, order).Ok? ==>
      Built(lib, net, spec, order).value.verb == spec.verb && Built(lib, net, spec, order).value.url == spec.url
  {
    if !IsBlank(spec.url) {
      var c := Chosen(lib, net, spec.body);
      if c.Ok? {
        assert Built(lib, net, spec, order) == match net.newRequest(spec.verb, spec.url)
          case Some(e) => Err(ClientError(e))
          case None => Ok(Assemble(spec.verb, spec.url, SetAll(map[], spec.headers.GetOr(map[]), order), c.value));
      } else {
        assert Built(lib, net, spec, order) == Err(c.error);
        assert c.error.OpError?;
      }
    }
  }

  /**
   * The body: a non-nil JSON body as its encoding, a non-nil form as its URL
   * encoding, a non-blank raw body as its text, nothing otherwise; the default
   * Content-Type goes with it (`application/json`,
   * `application/x-www-form-urlencoded`, the raw body's own type, or none).
   */
  lemma ChosenMeans(lib: JsonLib, net: Net, b: BodySpec)
    requires Chosen(lib, net, b).Ok?
    ensures var c := Chosen(lib, net, b).value;
      (b.kind == BodyJson && b.json.Some? ==>
         c == Choice(Utf8(lib.marshal(Obj(b.json.value)).value), "application/json"))
      && (b.kind == BodyForm && b.form.Some? ==>
         c == Choice(Utf8(net.encodeForm(b.form.value)), "application/x-www-form-urlencoded"))
      && (b.kind == BodyRaw && !IsBlank(b.raw) ==> c == Choice(Utf8(b.raw), b.contentType))
      && ((b.kind == BodyNone || (b.kind == BodyJson && b.json.None?) || (b.kind == BodyForm && b.form.None?)
           || (b.kind == BodyRaw && IsBlank(b.raw))) ==> c == Choice([], ""))
  {
  }

  /** The chosen body is sent; its default Content-Type applies only where the headers set none. */
  lemma BuiltBody(lib: JsonLib, net: Net, spec: RequestSpec, order: seq<string>)
    requires forall i :: 0 <= i < |order| ==> order[i] in spec.headers.GetOr(map[])
    requires Built(lib, net, spec, order).Ok?
    ensures Chosen(lib, net, spec.body).Ok?
    ensures var r := Built(lib, net, spec, order).value;
            var c := Chosen(lib, net, spec.body).value;
            var given := GetHeader(SetAll(map[], spec.headers.GetOr(map[]), order), ContentType);
      r.body == c.body && GetHeader(r.header, ContentType) == if given != "" then given else c.contentType
  {
  }

  /** The `for k, v := range spec.Headers { req.Header.Set(k, v) }` loop and the Content-Type default. */
  method BuildRequest(lib: JsonLib, net: Net, spec: RequestSpec) returns (r: Result<Request, Error>, ghost order: seq<string>)
    ensures IsEnumeration(order, spec.headers.GetOr(map[]).Keys)
    ensures r == Built(lib, net, spec, order)
  {
    var header: Header;
    header, order := SetEach(map[], spec.headers.GetOr(map[]));
    if TrimSpace(spec.url) == "" {
      return Err(ClientError(ErrInvalidRequest)), order;
    }
    var c := Chosen(lib, net, spec.body);
    if c.Err? {
      return Err(c.error), order;
    }
    var failed := net.newRequest(spec.verb, spec.url);
    if failed.Some? {
      return Err(ClientError(failed.value)), order;
    }
    var copied := header;
    if c.value.contentType != "" && GetHeader(header, ContentType) == "" {
      header := SetHeader(header, ContentType, c.value.contentType);
    }
    r := Ok(Request(spec.verb, spec.url, header, c.value.body));
    assert r.value == Assemble(spec.verb, spec.url, copied, c.value);
  }
}
