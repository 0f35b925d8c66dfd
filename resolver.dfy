/**
 * Placeholder resolution (`{{name}}`) for strings, header and form maps, JSON
 * bodies and whole requests. A runtime fixes the `$timestamp` and `$uuid`
 * built-ins once, from one reading of the clock and the UUID generator, so
 * every placeholder resolved through it sees the same values.
 */
module Resolver {
  import opened Common
  import opened Text
  import opened Errors
  import opened Json
  import opened Domain

  /** One reading of the clock (Unix seconds) and of the UUID generator. */
  datatype Reading = Reading(unixSeconds: int, uuid: Result<string, Error>)

  /**
   * `VarResolver`: its clock and UUID generator, as seen by the successive
   * `NewRuntime` calls made through it (the n-th call gets `sample(n)`).
   */
  datatype VarResolver = VarResolver(sample: nat -> Reading)

  // ---- The errors of a scan ----

  const UnclosedPlaceholder: Error :=
    OpError("vars.resolve", InvalidConfig, "", Some(Leaf("unclosed placeholder")))

  const EmptyPlaceholder: Error :=
    OpError("vars.resolve", InvalidConfig, "", Some(Leaf("empty placeholder")))

  function MissingVariable(name: string): Error {
    OpError("vars.resolve", MissingVar, "", Some(Leaf("missing variable: " + name)))
  }

  /** The errors a scan can end with: a malformed placeholder, or a name that is not defined. */
  ghost predicate IsScanError(vars: StringMap, builtins: StringMap, e: Error) {
    e == UnclosedPlaceholder || e == EmptyPlaceholder
    || exists name :: MissingVariable(name) == e && name != "" && Lookup(vars, builtins, name).None?
  }

  /** Built-ins first, then the caller's variables. */
  function Lookup(vars: StringMap, builtins: StringMap, name: string): (r: Option<string>)
    ensures r.Some? <==> name in builtins || name in vars
    ensures name in builtins ==> r == Some(builtins[name])
  {
    if name in builtins then Some(builtins[name])
    else if name in vars then Some(vars[name])
    else None
  }

  /** Puts `b` in front of a successful result and leaves an error alone. */
  function Prepend(b: string, r: Result<string, Error>): Result<string, Error> {
    if r.Ok? then Ok(b + r.value) else r
  }

  lemma PrependEmpty(r: Result<string, Error>)
    ensures Prepend("", r) == r
  {
    if r.Ok? {
      assert "" + r.value == r.value;
    }
  }

  lemma PrependPrepend(a: string, b: string, r: Result<string, Error>)
    ensures Prepend(a, Prepend(b, r)) == Prepend(a + b, r)
  {
    if r.Ok? {
      assert a + (b + r.value) == (a + b) + r.value;
    }
  }

  /**
   * The left-to-right scan of `s` from position `i`: text outside
   * placeholders is copied, a placeholder is replaced by its value, and the
   * scan resumes after the closing braces, so inserted values are never
   * scanned again.
   */
  function Scan(vars: StringMap, builtins: StringMap, s: string, i: nat): (r: Result<string, Error>)
    requires i <= |s|
    ensures r.Err? ==> IsScanError(vars, builtins, r.error)
    decreases |s| - i
  {
    if i == |s| then Ok("")
    else if i + 1 < |s| && s[i] == '{' && s[i + 1] == '{' then
      match Placeholder(vars, builtins, s, i + 2)
      case Err(e) => Err(e)
      case Ok((v, next)) => Prepend(v, Scan(vars, builtins, s, next))
    else Prepend([s[i]], Scan(vars, builtins, s, i + 1))
  }

  /**
   * The placeholder whose "{{" ends just before `start`: the name up to the
   * first "}}", trimmed, is looked up; the result is its value and the
   * position after the closing braces.
   */
  function Placeholder(vars: StringMap, builtins: StringMap, s: string, start: nat): (r: Result<(string, nat), Error>)
    requires start <= |s|
    ensures r.Ok? ==> start + 2 <= r.value.1 <= |s|
    ensures r.Err? ==> IsScanError(vars, builtins, r.error)
  {
    var rel := IndexOf(s[start..], "}}");
    if rel < 0 then Err(UnclosedPlaceholder)
    else
      var name := TrimSpace(s[start..start + rel]);
      if name == "" then Err(EmptyPlaceholder)
      else if Lookup(vars, builtins, name).None? then
        assert IsScanError(vars, builtins, MissingVariable(name));
        Err(MissingVariable(name))
      else Ok((Lookup(vars, builtins, name).value, start + rel + 2))
  }

  /** `resolveStringWith`: a string without "{{" is returned as it is; otherwise it is scanned. */
  function Resolve(vars: StringMap, builtins: StringMap, s: string): Result<string, Error> {
    if !Contains(s, "{{") then Ok(s) else Scan(vars, builtins, s, 0)
  }

  /** The scan would have returned the text unchanged too: the shortcut does not change results. */
  lemma {:induction false} ScanWithoutPlaceholder(vars: StringMap, builtins: StringMap, s: string, i: nat)
    requires i <= |s| && !Contains(s, "{{")
    ensures Scan(vars, builtins, s, i) == Ok(s[i..])
    decreases |s| - i
  {
    if i < |s| {
      assert !OccursAt(s, "{{", i);
      if i + 1 < |s| {
        assert s[i..i + 2] == [s[i], s[i + 1]];
      }
      assert Scan(vars, builtins, s, i) == Prepend([s[i]], Scan(vars, builtins, s, i + 1));
      ScanWithoutPlaceholder(vars, builtins, s, i + 1);
      assert [s[i]] + s[i + 1..] == s[i..];
    } else {
      assert s[i..] == [];
    }
  }

  /** With the shortcut or without, resolving is scanning. */
  lemma ResolveIsScan(vars: StringMap, builtins: StringMap, s: string)
    ensures Resolve(vars, builtins, s) == Scan(vars, builtins, s, 0)
  {
    if !Contains(s, "{{") {
      ScanWithoutPlaceholder(vars, builtins, s, 0);
    }
  }

  /**
   * A placeholder at position `i` is replaced by its value, whatever the
   * value contains, and the scan goes on right after its closing braces.
   */
  lemma PlaceholderAt(vars: StringMap, builtins: StringMap, s: string, i: nat, name: string)
    requires i + |name| + 4 <= |s| && s[i..i + |name| + 4] == "{{" + name + "}}"
    requires TrimSpace(name) == name && name != "" && '}' !in name
    requires Lookup(vars, builtins, name).Some?
    ensures Scan(vars, builtins, s, i)
         == Prepend(Lookup(vars, builtins, name).value, Scan(vars, builtins, s, i + |name| + 4))
  {
    var w := s[i..i + |name| + 4];
    assert s[i] == w[0] && s[i + 1] == w[1];
    var u := s[i + 2..];
    assert u[..|name| + 2] == name + "}}" by {
      assert u[..|name| + 2] == w[2..];
    }
    ClosingAfterName(u, name);
    assert s[i + 2..i + 2 + |name|] == u[..|name|];
    PlaceholderFound(vars, builtins, s, i + 2, name);
  }

  /** A well-formed placeholder name followed by the first "}}" is looked up. */
  lemma PlaceholderFound(vars: StringMap, builtins: StringMap, s: string, start: nat, name: string)
    requires start <= |s| && IndexOf(s[start..], "}}") == |name|
    requires s[start..start + |name|] == name
    requires TrimSpace(name) == name && name != ""
    requires Lookup(vars, builtins, name).Some?
    ensures Placeholder(vars, builtins, s, start) == Ok((Lookup(vars, builtins, name).value, start + |name| + 2))
  {
  }

  /** After "{{", a name without '}' runs up to the first "}}". */
  lemma ClosingAfterName(u: string, name: string)
    requires |name| + 2 <= |u| && u[..|name| + 2] == name + "}}"
    requires '}' !in name
    ensures IndexOf(u, "}}") == |name|
    ensures u[..|name|] == name
  {
    var w := u[..|name| + 2];
    forall j | 0 <= j < |name|
      ensures !OccursAt(u, "}}", j)
    {
      assert u[j] == w[j] == name[j] && name[j] in name;
      assert u[j..j + 2][0] == u[j];
    }
    assert u[|name|..|name| + 2] == w[|name|..];
    IndexFromIs(u, "}}", 0, |name|);
    assert u[..|name|] == w[..|name|];
  }

  datatype Runtime = Runtime(base: StringMap, builtins: StringMap) {

    /** `ResolveString` as a specification. */
    function Resolved(s: string): Result<string, Error> {
      Resolve(base, builtins, s)
    }

    /** `resolveStringWith` run with this runtime's variables and built-ins. */
    method ResolveString(s: string) returns (r: Result<string, Error>)
      ensures r == Resolved(s)
    {
      r := ResolveStringWith(base, builtins, s);
    }

    predicate AllResolve(m: StringMap) {
      forall k :: k in m ==> Resolved(m[k]).Ok?
    }

    predicate ResolvedValues(m: StringMap, out: StringMap) {
      out.Keys == m.Keys && forall k :: k in m ==> Resolved(m[k]) == Ok(out[k])
    }

    /**
     * `ResolveHeaders` (and the identical loop over form values): the same
     * keys with resolved values, or the error of one value that failed.
     */
    method ResolveHeaders(h: StringMap) returns (r: Result<StringMap, Error>)
      ensures r.Ok? <==> AllResolve(h)
      ensures r.Ok? ==> ResolvedValues(h, r.value)
      ensures r.Err? ==> exists k :: k in h && Resolved(h[k]) == Err(r.error)
    {
      var out: StringMap := map[];
      var todo := h.Keys;
      while todo != {}
        invariant todo <= h.Keys
        invariant out.Keys == h.Keys - todo
        invariant forall k :: k in out ==> Resolved(h[k]) == Ok(out[k])
        decreases todo
      {
        var k :| k in todo;
        var rv := ResolveString(h[k]);
        if rv.Err? {
          return Err(rv.error);
        }
        out := out[k := rv.value];
        todo := todo - {k};
      }
      return Ok(out);
    }

    /** Every string leaf of `v` resolves. */
    predicate Resolvable(v: Json) {
      match v
      case Str(s) => Resolved(s).Ok?
      case Arr(items) => forall i :: 0 <= i < |items| ==> Resolvable(items[i])
      case Obj(fields) => forall k :: k in fields ==> Resolvable(fields[k])
      case _ => true
    }

    /** `v` with every string leaf replaced by its resolved text. */
    function ResolvedJson(v: Json): Json
      requires Resolvable(v)
    {
      match v
      case Str(s) => Str(Resolved(s).value)
      case Arr(items) => Arr(seq(|items|, i requires 0 <= i < |items| => ResolvedJson(items[i])))
      case Obj(fields) => Obj(map k | k in fields :: ResolvedJson(fields[k]))
      case _ => v
    }

    /**
     * `e` is what the walk of `ResolveJSONValue` can stop with: the error of a
     * failing string leaf, reached through the first failing list element or
     * through some failing map entry.
     */
    ghost predicate LeafError(v: Json, e: Error) {
      match v
      case Str(s) => Resolved(s) == Err(e)
      case Arr(items) =>
        exists i :: 0 <= i < |items| && LeafError(items[i], e)
          && forall j :: 0 <= j < i ==> Resolvable(items[j])
      case Obj(fields) => exists k :: k in fields && LeafError(fields[k], e)
      case _ => false
    }

    /** `ResolveJSONValue`: resolves string leaves only, recursively through lists and maps. */
    method ResolveJsonValue(v: Json) returns (r: Result<Json, Error>)
      ensures r.Ok? <==> Resolvable(v)
      ensures r.Ok? ==> r.value == ResolvedJson(v)
      ensures r.Err? ==> LeafError(v, r.error)
      decreases v
    {
      match v {
        case Str(s) =>
          var rs := ResolveString(s);
          if rs.Err? {
            return Err(rs.error);
          }
          return Ok(Str(rs.value));
        case Obj(fields) =>
          var out: map<string, Json> := map[];
          var todo := fields.Keys;
          while todo != {}
            invariant todo <= fields.Keys
            invariant out.Keys == fields.Keys - todo
            invariant forall k :: k in out ==> Resolvable(fields[k]) && out[k] == ResolvedJson(fields[k])
            decreases todo
          {
            var k :| k in todo;
            var rv := ResolveJsonValue(fields[k]);
            if rv.Err? {
              return Err(rv.error);
            }
            out := out[k := rv.value];
            todo := todo - {k};
          }
          return Ok(Obj(out));
        case Arr(items) =>
          var out: seq<Json> := [];
          var i := 0;
          while i < |items|
            invariant 0 <= i <= |items|
            invariant |out| == i
            invariant forall j :: 0 <= j < i ==> Resolvable(items[j]) && out[j] == ResolvedJson(items[j])
          {
            var rv := ResolveJsonValue(items[i]);
            if rv.Err? {
              return Err(rv.error);
            }
            out := out + [rv.value];
            i := i + 1;
          }
          return Ok(Arr(out));
        case _ =>
          return Ok(v);
      }
    }

    /** Resolution keeps the shape: map keys, list lengths and order, and every non-string leaf. */
    lemma {:induction false} ResolvedSameShape(v: Json)
      requires Resolvable(v)
      ensures SameShape(v, ResolvedJson(v))
      decreases v
    {
      match v {
        case Arr(items) =>
          forall i | 0 <= i < |items| ensures SameShape(items[i], ResolvedJson(v).items[i]) {
            ResolvedSameShape(items[i]);
          }
        case Obj(fields) =>
          forall k | k in fields ensures SameShape(fields[k], ResolvedJson(v).fields[k]) {
            ResolvedSameShape(fields[k]);
          }
        case _ =>
      }
    }

    /**
     * `ResolveBodySpec`: only the payload of the body's own type is resolved;
     * a missing JSON or form payload and the other types pass through.
     */
    method ResolveBodySpec(b: BodySpec) returns (r: Result<BodySpec, Error>)
      ensures BodyOutcome(b, r)
      ensures r.Ok? ==> r.value.kind == b.kind && r.value.contentType == b.contentType
    {
      match b.kind {
        case BodyJson =>
          if b.json.None? {
            return Ok(b);
          }
          var clone := ResolveJsonValue(Obj(b.json.value));
          if clone.Err? {
            return Err(clone.error);
          }
          return Ok(b.(json := Some(clone.value.fields)));
        case BodyForm =>
          if b.form.None? {
            return Ok(b);
          }
          var f := ResolveHeaders(b.form.value);
          if f.Err? {
            return Err(f.error);
          }
          return Ok(b.(form := Some(f.value)));
        case BodyRaw =>
          var rv := ResolveString(b.raw);
          if rv.Err? {
            return Err(rv.error);
          }
          return Ok(b.(raw := rv.value));
        case _ =>
          return Ok(b);
      }
    }

    ghost predicate BodyOutcome(b: BodySpec, r: Result<BodySpec, Error>) {
      match b.kind
      case BodyJson =>
        if b.json.None? then r == Ok(b)
        else
          (r.Ok? <==> Resolvable(Obj(b.json.value)))
          && (r.Ok? ==> r.value == b.(json := Some(ResolvedJson(Obj(b.json.value)).fields)))
          && (r.Err? ==> LeafError(Obj(b.json.value), r.error))
      case BodyForm =>
        if b.form.None? then r == Ok(b)
        else
          (r.Ok? <==> AllResolve(b.form.value))
          && (r.Ok? ==> r.value.form.Some? && ResolvedValues(b.form.value, r.value.form.value)
                        && r.value == b.(form := r.value.form))
          && (r.Err? ==> exists k :: k in b.form.value && Resolved(b.form.value[k]) == Err(r.error))
      case BodyRaw =>
        (match Resolved(b.raw)
        case Ok(v) => r == Ok(b.(raw := v))
        case Err(e) => r == Err(e))
      case _ => r == Ok(b)
    }

    /**
     * `ResolveRequest`: the URL, then the headers (nil becomes empty), then
     * the body; the first failure is wrapped with the name of its field.
     */
    method ResolveRequest(req: RequestSpec) returns (r: Result<RequestSpec, Error>)
      ensures RequestOutcome(req, r)
      ensures r.Ok? ==> r.value.headers.Some? && r.value.body.kind == req.body.kind
      ensures r.Ok? ==> r.value.(url := req.url, headers := req.headers, body := req.body) == req
    {
      var url := ResolveString(req.url);
      if url.Err? {
        return Err(WrapField(url.error, "request.url"));
      }
      var out := req.(url := url.value);
      if req.headers.Some? {
        var h := ResolveHeaders(req.headers.value);
        if h.Err? {
          return Err(WrapField(h.error, "request.headers"));
        }
        out := out.(headers := Some(h.value));
      } else {
        out := out.(headers := Some(map[]));
      }
      var body := ResolveBodySpec(req.body);
      if body.Err? {
        return Err(WrapField(body.error, "request.body"));
      }
      return Ok(out.(body := body.value));
    }

    ghost predicate RequestOutcome(req: RequestSpec, r: Result<RequestSpec, Error>) {
      match Resolved(req.url)
      case Err(e) => r == Err(WrapField(e, "request.url"))
      case Ok(url) =>
        if req.headers.Some? && !AllResolve(req.headers.value) then
          exists k :: k in req.headers.value && Resolved(req.headers.value[k]).Err?
            && r == Err(WrapField(Resolved(req.headers.value[k]).error, "request.headers"))
        else
          exists body :: BodyOutcome(req.body, body) &&
            match body
            case Err(e) => r == Err(WrapField(e, "request.body"))
            case Ok(bd) =>
              r.Ok? && r.value.url == url && r.value.body == bd
              && (req.headers.None? ==> r.value.headers == Some(map[]))
              && (req.headers.Some? ==>
                    r.value.headers.Some? && ResolvedValues(req.headers.value, r.value.headers.value))
    }
  }

  /** Shapes agree: the same constructors, keys and lengths, and equal non-string leaves. */
  predicate SameShape(a: Json, b: Json) {
    match a
    case Str(_) => b.Str?
    case Arr(xs) => b.Arr? && |xs| == |b.items| && forall i :: 0 <= i < |xs| ==> SameShape(xs[i], b.items[i])
    case Obj(fs) => b.Obj? && fs.Keys == b.fields.Keys && forall k :: k in fs ==> SameShape(fs[k], b.fields[k])
    case _ => a == b
  }

  /** `Placeholder` once the closing braces are found at offset `rel` after `start`. */
  lemma PlaceholderClosed(vars: StringMap, builtins: StringMap, s: string, start: nat, rel: nat)
    requires start <= |s| && rel == IndexOf(s[start..], "}}")
    ensures var name := TrimSpace(s[start..start + rel]);
      Placeholder(vars, builtins, s, start)
      == if name == "" then Err(EmptyPlaceholder)
         else if Lookup(vars, builtins, name).None? then Err(MissingVariable(name))
         else Ok((Lookup(vars, builtins, name).value, start + rel + 2))
  {
  }

  /**
   * The part of `resolveStringWith` that reads one placeholder, whose "{{"
   * ends just before `start`: its value and the position after its "}}".
   */
  method ReadPlaceholder(vars: StringMap, builtins: StringMap, s: string, start: nat)
    returns (r: Result<string, Error>, next: nat)
    requires start <= |s|
    ensures r.Err? ==> Placeholder(vars, builtins, s, start) == Err(r.error)
    ensures r.Ok? ==> Placeholder(vars, builtins, s, start) == Ok((r.value, next))
  {
    next := start;
    var end := IndexOf(s[start..], "}}");
    if end < 0 {
      return Err(UnclosedPlaceholder), next;
    }
    PlaceholderClosed(vars, builtins, s, start, end);
    end := start + end;
    var name := TrimSpace(s[start..end]);
    if name == "" {
      return Err(EmptyPlaceholder), next;
    }
    var val: string;
    if name in builtins {
      val := builtins[name];
    } else if name in vars {
      val := vars[name];
    } else {
      return Err(MissingVariable(name)), next;
    }
    assert Lookup(vars, builtins, name) == Some(val);
    return Ok(val), end + 2;
  }

  /** `resolveStringWith`: one left-to-right pass writing into a builder. */
  method ResolveStringWith(vars: StringMap, builtins: StringMap, s: string) returns (r: Result<string, Error>)
    ensures r == Resolve(vars, builtins, s)
  {
    if !Contains(s, "{{") {
      return Ok(s);
    }
    var b := "";
    var i := 0;
    PrependEmpty(Scan(vars, builtins, s, 0));
    while i < |s|
      invariant 0 <= i <= |s|
      invariant Scan(vars, builtins, s, 0) == Prepend(b, Scan(vars, builtins, s, i))
      decreases |s| - i
    {
      if i + 1 < |s| && s[i] == '{' && s[i + 1] == '{' {
        var val, next := ReadPlaceholder(vars, builtins, s, i + 2);
        if val.Err? {
          return val;
        }
        PrependPrepend(b, val.value, Scan(vars, builtins, s, next));
        b := b + val.value;
        i := next;
      } else {
        PrependPrepend(b, [s[i]], Scan(vars, builtins, s, i + 1));
        b := b + [s[i]];
        i := i + 1;
      }
    }
    assert b + "" == b;
    return Ok(b);
  }

  /** `kindFrom`: the kind of the first `OpError` in the chain, else `KindExecution`. */
  function KindFrom(err: Error): (k: Kind)
    ensures FirstOpError(err).Some? ==> IsKind(Some(err), k)
    ensures FirstOpError(err).None? ==> k == Execution
  {
    match FirstOpError(err)
    case Some(oe) => oe.kind
    case None => Execution
  }

  /** `wrapField`: a new `OpError` that keeps the kind and prefixes the field name to the message. */
  function WrapField(err: Error, field: string): (r: Error)
    ensures r.OpError? && r.op == "vars.resolve" && r.path == ""
    ensures Unwrap(r) == Some(Wrapped(field + ": ", err))
    ensures HasSuffix(Message(r), field + ": " + Message(err))
  {
    OpError("vars.resolve", KindFrom(err), "", Some(Wrapped(field + ": ", err)))
  }

  /** The wrapped error has the kind of the original `OpError`, or `KindExecution` when there is none. */
  lemma WrapFieldKind(err: Error, field: string, k: Kind)
    ensures IsKind(Some(WrapField(err, field)), k)
        <==> (if FirstOpError(err).Some? then IsKind(Some(err), k) else k == Execution)
  {
    if FirstOpError(err).Some? {
      IsKindUnique2(err, KindFrom(err), k);
    }
  }

  lemma IsKindUnique2(err: Error, a: Kind, b: Kind)
    requires IsKind(Some(err), a)
    ensures IsKind(Some(err), b) <==> a == b
  {
    if IsKind(Some(err), b) {
      IsKindUnique(err, a, b);
    }
  }

  /** Every error that resolution of a string produces is an `OpError` of kind invalid-config or missing-variable. */
  lemma ResolveErrorKind(vars: StringMap, builtins: StringMap, s: string)
    requires Resolve(vars, builtins, s).Err?
    ensures var e := Resolve(vars, builtins, s).error;
      e.OpError? && e.op == "vars.resolve" && (e.kind == InvalidConfig || e.kind == MissingVar)
  {
  }

  /** `NewRuntime`: fixes the built-ins from one reading and copies the caller's variables. */
  method NewRuntime(vars: StringMap, reading: Reading) returns (r: Result<Runtime, Error>)
    ensures reading.uuid.Err? ==> r == Err(OpError("vars.builtins.uuid", Execution, "", Some(reading.uuid.error)))
    ensures reading.uuid.Ok? ==> r.Ok? && r.value.base == vars
    ensures reading.uuid.Ok? ==> r.value.builtins == Builtins(reading)
  {
    var ts := IntToString(reading.unixSeconds);
    if reading.uuid.Err? {
      return Err(OpError("vars.builtins.uuid", Execution, "", Some(reading.uuid.error)));
    }
    var baseCopy: StringMap := map[];
    var todo := vars.Keys;
    while todo != {}
      invariant todo <= vars.Keys
      invariant baseCopy.Keys == vars.Keys - todo
      invariant forall k :: k in baseCopy ==> baseCopy[k] == vars[k]
      decreases todo
    {
      var k :| k in todo;
      baseCopy := baseCopy[k := vars[k]];
      todo := todo - {k};
    }
    return Ok(Runtime(baseCopy, map["$timestamp" := ts, "$uuid" := reading.uuid.value]));
  }

  function Builtins(reading: Reading): StringMap
    requires reading.uuid.Ok?
  {
    map["$timestamp" := IntToString(reading.unixSeconds), "$uuid" := reading.uuid.value]
  }

  /**
   * Within one runtime, `{{$uuid}}` resolves to the reading's UUID, even when
   * the caller's variables define the same name.
   */
  lemma UuidPlaceholder(vars: StringMap, reading: Reading, s: string, i: nat)
    requires reading.uuid.Ok?
    requires i + 9 <= |s| && s[i..i + 9] == "{{$uuid}}"
    ensures Scan(vars, Builtins(reading), s, i)
         == Prepend(reading.uuid.value, Scan(vars, Builtins(reading), s, i + 9))
  {
    TrimSpaceOfNonBlankEdges("$uuid");
    assert "{{" + "$uuid" + "}}" == "{{$uuid}}";
    assert '}' !in "$uuid";
    PlaceholderAt(vars, Builtins(reading), s, i, "$uuid");
  }

  /** Likewise `{{$timestamp}}` resolves to the reading's clock value in decimal. */
  lemma TimestampPlaceholder(vars: StringMap, reading: Reading, s: string, i: nat)
    requires reading.uuid.Ok?
    requires i + 14 <= |s| && s[i..i + 14] == "{{$timestamp}}"
    ensures Scan(vars, Builtins(reading), s, i)
         == Prepend(IntToString(reading.unixSeconds), Scan(vars, Builtins(reading), s, i + 14))
  {
    TrimSpaceOfNonBlankEdges("$timestamp");
    assert "{{" + "$timestamp" + "}}" == "{{$timestamp}}";
    assert '}' !in "$timestamp";
    PlaceholderAt(vars, Builtins(reading), s, i, "$timestamp");
  }

  // ---- uuidV4 formatting ----

  /** A lower-case hexadecimal digit, as `encoding/hex` writes them. */
  predicate IsLowerHex(c: char) {
    '0' <= c <= '9' || 'a' <= c <= 'f'
  }

  function HexDigit(d: nat): (c: char)
    requires d < 16
    ensures IsLowerHex(c)
  {
    if d < 10 then ('0' as int + d) as char else ('a' as int + d - 10) as char
  }

  /** The value of a hexadecimal digit (0 for any other character). */
  function HexValue(c: char): nat {
    if '0' <= c <= '9' then c as int - '0' as int
    else if 'a' <= c <= 'f' then c as int - 'a' as int + 10
    else 0
  }

  lemma HexValueOfDigit(d: nat)
    requires d < 16
    ensures HexValue(HexDigit(d)) == d
  {
  }

  /** `hex.Encode`: two lower-case digits per byte, high nibble first. */
  function Hex(bs: seq<byte>): (r: string)
    ensures |r| == 2 * |bs|
    ensures forall i :: 0 <= i < |r| ==> IsLowerHex(r[i])
  {
    if bs == [] then "" else [HexDigit(bs[0] as nat / 16), HexDigit(bs[0] as nat % 16)] + Hex(bs[1..])
  }

  /** Hexadecimal text back to bytes, two digits per byte. */
  function Unhex(s: string): (bs: seq<byte>)
    requires |s| % 2 == 0
    ensures |bs| == |s| / 2
  {
    if s == [] then []
    else [((16 * HexValue(s[0]) + HexValue(s[1])) % 256) as byte] + Unhex(s[2..])
  }

  /** Decoding the hex text of some bytes gives the bytes back. */
  lemma {:induction false} UnhexHex(bs: seq<byte>)
    ensures Unhex(Hex(bs)) == bs
  {
    if bs != [] {
      var b := bs[0] as nat;
      var h := Hex(bs);
      HexValueOfDigit(b / 16);
      HexValueOfDigit(b % 16);
      assert h[2..] == Hex(bs[1..]);
      UnhexHex(bs[1..]);
      assert (16 * (b / 16) + b % 16) % 256 == b;
    }
  }

  /** The 8-4-4-4-12 layout of 16 bytes in hex. */
  function UuidText(u: seq<byte>): string
    requires |u| == 16
  {
    Hex(u[0..4]) + "-" + Hex(u[4..6]) + "-" + Hex(u[6..8]) + "-" + Hex(u[8..10]) + "-" + Hex(u[10..16])
  }

  /** Where each group of the layout sits in the text. */
  lemma UuidTextGroups(u: seq<byte>)
    requires |u| == 16
    ensures var t := UuidText(u);
      |t| == 36 && t[8] == '-' && t[13] == '-' && t[18] == '-' && t[23] == '-'
      && t[0..8] == Hex(u[0..4]) && t[9..13] == Hex(u[4..6]) && t[14..18] == Hex(u[6..8])
      && t[19..23] == Hex(u[8..10]) && t[24..36] == Hex(u[10..16])
  {
    var p1 := Hex(u[0..4]) + "-";
    var p2 := p1 + Hex(u[4..6]) + "-";
    var p3 := p2 + Hex(u[6..8]) + "-";
    var p4 := p3 + Hex(u[8..10]) + "-";
    assert UuidText(u) == p4 + Hex(u[10..16]);
    assert |p1| == 9 && |p2| == 14 && |p3| == 19 && |p4| == 24;
    assert p4[..19] == p3 && p3[..14] == p2 && p2[..9] == p1;
  }

  /**
   * The text is 36 characters: dashes at 8, 13, 18 and 23, lower-case hex
   * digits everywhere else, and at 14 and 19 the high nibbles of bytes 6 and 8.
   */
  lemma UuidTextLayout(u: seq<byte>)
    requires |u| == 16
    ensures |UuidText(u)| == 36
    ensures UuidText(u)[8] == '-' && UuidText(u)[13] == '-' && UuidText(u)[18] == '-' && UuidText(u)[23] == '-'
    ensures forall i :: 0 <= i < 36 && i != 8 && i != 13 && i != 18 && i != 23 ==> IsLowerHex(UuidText(u)[i])
    ensures UuidText(u)[14] == HexDigit(u[6] as nat / 16) && UuidText(u)[19] == HexDigit(u[8] as nat / 16)
  {
    var t := UuidText(u);
    UuidTextGroups(u);
    forall i | 0 <= i < 36 && i != 8 && i != 13 && i != 18 && i != 23
      ensures IsLowerHex(t[i])
    {
      if i < 8 { assert t[i] == t[0..8][i]; }
      else if i < 13 { assert t[i] == t[9..13][i - 9]; }
      else if i < 18 { assert t[i] == t[14..18][i - 14]; }
      else if i < 23 { assert t[i] == t[19..23][i - 19]; }
      else { assert t[i] == t[24..36][i - 24]; }
    }
    assert t[14] == t[14..18][0] == Hex(u[6..8])[0];
    assert t[19] == t[19..23][0] == Hex(u[8..10])[0];
  }

  /** Reading the bytes back out of a UUID's text, skipping the dashes. */
  function ParseUuid(t: string): (u: seq<byte>)
    requires |t| == 36
    ensures |u| == 16
  {
    Unhex(t[0..8]) + Unhex(t[9..13]) + Unhex(t[14..18]) + Unhex(t[19..23]) + Unhex(t[24..36])
  }

  /** The text of 16 bytes determines them: parsing it gives them back. */
  lemma ParseUuidText(u: seq<byte>)
    requires |u| == 16
    ensures ParseUuid(UuidText(u)) == u
  {
    UuidTextGroups(u);
    UnhexHex(u[0..4]);
    UnhexHex(u[4..6]);
    UnhexHex(u[6..8]);
    UnhexHex(u[8..10]);
    UnhexHex(u[10..16]);
    assert u[0..4] + u[4..6] + u[6..8] + u[8..10] + u[10..16] == u;
  }

  /** The random bytes with the version (4) and variant (binary 10) bits set. */
  function Versioned(b: seq<byte>): (u: seq<byte>)
    requires |b| == 16
    ensures |u| == 16 && forall i :: 0 <= i < 16 && i != 6 && i != 8 ==> u[i] == b[i]
    ensures u[6] as int / 16 == 4 && u[6] as int % 16 == b[6] as int % 16
    ensures u[8] as int / 64 == 2 && u[8] as int % 64 == b[8] as int % 64
  {
    b[6 := (b[6] as int % 16 + 64) as byte][8 := (b[8] as int % 64 + 128) as byte]
  }

  /**
   * `uuidV4` given the 16 random bytes (or the failure of the random source):
   * the hex text of the random bytes with version 4 and variant 10 set, in the
   * 8-4-4-4-12 layout.
   */
  function UuidV4(random: Result<seq<byte>, Error>): (r: Result<string, Error>)
    requires random.Ok? ==> |random.value| == 16
    ensures random.Err? ==> r == Err(random.error)
    ensures random.Ok? ==> r == Ok(UuidText(Versioned(random.value)))
    ensures r.Ok? ==> |r.value| == 36
    ensures r.Ok? ==> r.value[8] == '-' && r.value[13] == '-' && r.value[18] == '-' && r.value[23] == '-'
    ensures r.Ok? ==> forall i :: 0 <= i < 36 && i != 8 && i != 13 && i != 18 && i != 23 ==> IsLowerHex(r.value[i])
    ensures r.Ok? ==> r.value[14] == '4' && r.value[19] in "89ab"
  {
    if random.Err? then Err(random.error)
    else
      var u := Versioned(random.value);
      UuidTextLayout(u);
      Ok(UuidText(u))
  }

  /**
   * The UUID keeps every random bit outside the version and variant: parsing
   * it gives back the random bytes, with only the top four bits of byte 6 and
   * the top two of byte 8 replaced.
   */
  lemma UuidV4KeepsRandom(random: seq<byte>)
    requires |random| == 16
    ensures var u := ParseUuid(UuidV4(Ok(random)).value);
      (forall i :: 0 <= i < 16 && i != 6 && i != 8 ==> u[i] == random[i])
      && u[6] as int == 64 + random[6] as int % 16 && u[8] as int == 128 + random[8] as int % 64
  {
    ParseUuidText(Versioned(random));
  }
}
