/**
 * The validator: loads a collection and an environment and, without any HTTP
 * call, resolves every request's templated fields in a scope that grows with
 * the extraction keys of the requests before it (each new key standing for an
 * unknown value, `"x"`). The first failure stops it.
 */
module Validation {
  import opened Common
  import opened Text
  import opened Errors
  import opened Json
  import opened Domain
  import opened Resolver
  import Orchestration

  /** `ValidateCollection`: its loaders and its variable resolver. */
  datatype ValidateCollection = ValidateCollection(
    loadCollection: string -> Result<Collection, Error>,
    loadEnvironment: string -> Result<Environment, Error>,
    resolver: VarResolver)

  /** `WithVarResolver(vr)` applied to a validator: a nil resolver changes nothing. */
  function WithVarResolver(vr: Option<VarResolver>, uc: ValidateCollection): (r: ValidateCollection)
    ensures r.loadCollection == uc.loadCollection && r.loadEnvironment == uc.loadEnvironment
    ensures r.resolver == if vr.Some? then vr.value else uc.resolver
  {
    if vr.Some? then uc.(resolver := vr.value) else uc
  }

  /** The resolver in force after `opts`: the last non-nil one, or `fallback` when there is none. */
  function LastResolver(fallback: VarResolver, opts: seq<Option<VarResolver>>): VarResolver {
    if opts == [] then fallback
    else if opts[|opts| - 1].Some? then opts[|opts| - 1].value
    else LastResolver(fallback, opts[..|opts| - 1])
  }

  /**
   * `NewValidateCollection`, with `fallback` for `domain.NewVarResolver()` and
   * each option a `WithVarResolver` of a possibly nil resolver.
   */
  method NewValidateCollection(cl: string -> Result<Collection, Error>, el: string -> Result<Environment, Error>,
                               fallback: VarResolver, opts: seq<Option<VarResolver>>)
    returns (uc: ValidateCollection)
    ensures uc == ValidateCollection(cl, el, LastResolver(fallback, opts))
  {
    uc := ValidateCollection(cl, el, fallback);
    for i := 0 to |opts|
      invariant uc == ValidateCollection(cl, el, LastResolver(fallback, opts[..i]))
    {
      assert opts[..i + 1][..i] == opts[..i];
      uc := WithVarResolver(opts[i], uc);
    }
    assert opts[..|opts|] == opts;
  }

  /** Without a non-nil option the default resolver stays. */
  lemma {:induction false} NoResolverKeepsDefault(fallback: VarResolver, opts: seq<Option<VarResolver>>)
    requires forall i :: 0 <= i < |opts| ==> opts[i].None?
    ensures LastResolver(fallback, opts) == fallback
    decreases |opts|
  {
    if opts != [] {
      NoResolverKeepsDefault(fallback, opts[..|opts| - 1]);
    }
  }

  /** The last non-nil option wins, whatever came before it. */
  lemma {:induction false} LastResolverWins(fallback: VarResolver, opts: seq<Option<VarResolver>>, i: nat)
    requires i < |opts| && opts[i].Some?
    requires forall j :: i < j < |opts| ==> opts[j].None?
    ensures LastResolver(fallback, opts) == opts[i].value
    decreases |opts|
  {
    if i < |opts| - 1 {
      LastResolverWins(fallback, opts[..|opts| - 1], i);
    }
  }

  /** The scope once a request's extraction keys are assumed available: absent keys become `"x"`. */
  function WithExtractKeys(vars: StringMap, extract: ExtractSpec): (r: StringMap)
    ensures r.Keys == vars.Keys + extract.Keys
    ensures forall k :: k in vars ==> r[k] == vars[k]
    ensures forall k :: k in extract && k !in vars ==> r[k] == "x"
  {
    map k | k in vars.Keys + extract.Keys :: if k in vars then vars[k] else "x"
  }

  /** The loop of `Execute` that adds `"x"` for every extraction key not yet in scope. */
  method AddExtractKeys(vars: StringMap, extract: ExtractSpec) returns (out: StringMap)
    ensures out == WithExtractKeys(vars, extract)
  {
    out := vars;
    var todo := extract.Keys;
    while todo != {}
      invariant todo <= extract.Keys
      invariant out.Keys == vars.Keys + (extract.Keys - todo)
      invariant forall k :: k in vars ==> out[k] == vars[k]
      invariant forall k :: k in out && k !in vars ==> out[k] == "x"
      decreases todo
    {
      var k :| k in todo;
      if k !in out {
        out := out[k := "x"];
      }
      todo := todo - {k};
    }
  }

  /** Every templated field of the body that `ResolveBodySpec` looks at, for its kind, resolves in `rt`. */
  predicate BodyResolves(rt: Runtime, b: BodySpec) {
    match b.kind
    case BodyJson => b.json.Some? ==> rt.Resolvable(Obj(b.json.value))
    case BodyForm => b.form.Some? ==> rt.AllResolve(b.form.value)
    case BodyRaw => rt.Resolved(b.raw).Ok?
    case _ => true
  }

  lemma BodyOutcomeOk(rt: Runtime, b: BodySpec, r: Result<BodySpec, Error>)
    requires rt.BodyOutcome(b, r)
    ensures r.Ok? <==> BodyResolves(rt, b)
  {
  }

  /** Every templated field of `req` that `ResolveRequest` looks at resolves in `rt`. */
  predicate RequestResolves(rt: Runtime, req: RequestSpec) {
    rt.Resolved(req.url).Ok?
    && (req.headers.Some? ==> rt.AllResolve(req.headers.value))
    && BodyResolves(rt, req.body)
  }

  /** Whether `ResolveRequest` succeeds does not depend on the order it visits maps in. */
  lemma RequestOutcomeOk(rt: Runtime, req: RequestSpec, r: Result<RequestSpec, Error>)
    requires rt.RequestOutcome(req, r)
    ensures r.Ok? <==> RequestResolves(rt, req)
  {
    if rt.Resolved(req.url).Ok? && !(req.headers.Some? && !rt.AllResolve(req.headers.value)) {
      var body :| rt.BodyOutcome(req.body, body) && (body.Err? ==> r.Err?) && (body.Ok? ==> r.Ok?);
      BodyOutcomeOk(rt, req.body, body);
    }
  }

  /** The error `Execute` returns for a request that does not resolve. */
  function RequestError(req: RequestSpec, e: Error): Error {
    Wrapped("request " + Quote(req.name) + ": ", e)
  }

  /** Wrapping with the request name keeps the resolution error's kind. */
  lemma RequestErrorKind(req: RequestSpec, e: Error)
    ensures KindOf(RequestError(req, e)) == KindOf(e)
  {
    forall k: Kind
      ensures IsKind(Some(RequestError(req, e)), k) == IsKind(Some(e), k)
    {
      WrappedKeepsKind("request " + Quote(req.name) + ": ", e, k);
    }
    var a := KindOf(RequestError(req, e));
    var b := KindOf(e);
    if a.Some? {
      assert IsKind(Some(e), a.value);
    }
    if b.Some? {
      assert IsKind(Some(RequestError(req, e)), b.value);
    }
  }

  /** The error of `NewRuntime` when the UUID generator fails. */
  function RuntimeError(reading: Reading): Error
    requires reading.uuid.Err?
  {
    OpError("vars.builtins.uuid", Execution, "", Some(reading.uuid.error))
  }

  /**
   * What `Execute` can return once the requests before `i` have passed in the
   * scope `vars`: `cancelled(i)` is what `ctx.Err()` reports before request `i`,
   * and the resolver has made `calls` runtimes before this validation began.
   * Which error a failing request gives can depend on the order in which its
   * maps are visited; whether it fails does not.
   */
  ghost predicate Outcome(uc: ValidateCollection, cancelled: nat -> Option<Error>, calls: nat,
                          reqs: seq<RequestSpec>, vars: StringMap, i: nat, err: Option<Error>)
    requires i <= |reqs|
    decreases |reqs| - i
  {
    if i == |reqs| then err.None?
    else if cancelled(i).Some? then err == cancelled(i)
    else
      var reading := uc.resolver.sample(calls + i);
      if reading.uuid.Err? then err == Some(RuntimeError(reading))
      else
        var rt := Runtime(vars, Builtins(reading));
        if RequestResolves(rt, reqs[i]) then
          Outcome(uc, cancelled, calls, reqs, WithExtractKeys(vars, reqs[i].extract), i + 1, err)
        else
          exists r :: rt.RequestOutcome(reqs[i], r) && r.Err? && err == Some(RequestError(reqs[i], r.error))
  }

  /** Every request from `i` on is reached and resolves. */
  ghost predicate AllPass(uc: ValidateCollection, cancelled: nat -> Option<Error>, calls: nat,
                          reqs: seq<RequestSpec>, vars: StringMap, i: nat)
    requires i <= |reqs|
    decreases |reqs| - i
  {
    i == |reqs|
    || (cancelled(i).None? && uc.resolver.sample(calls + i).uuid.Ok?
        && RequestResolves(Runtime(vars, Builtins(uc.resolver.sample(calls + i))), reqs[i])
        && AllPass(uc, cancelled, calls, reqs, WithExtractKeys(vars, reqs[i].extract), i + 1))
  }

  /**
   * The result is nil exactly when every request was reached and resolved; a
   * resolution failure keeps the kind of the underlying error.
   */
  lemma {:induction false} OutcomeMeans(uc: ValidateCollection, cancelled: nat -> Option<Error>, calls: nat,
                                        reqs: seq<RequestSpec>, vars: StringMap, i: nat, err: Option<Error>)
    requires i <= |reqs|
    requires Outcome(uc, cancelled, calls, reqs, vars, i, err)
    ensures err.None? <==> AllPass(uc, cancelled, calls, reqs, vars, i)
    decreases |reqs| - i
  {
    if i < |reqs| && cancelled(i).None? {
      var reading := uc.resolver.sample(calls + i);
      if reading.uuid.Ok? && RequestResolves(Runtime(vars, Builtins(reading)), reqs[i]) {
        OutcomeMeans(uc, cancelled, calls, reqs, WithExtractKeys(vars, reqs[i].extract), i + 1, err);
      }
    }
  }

  /** A request that is reached and resolves hands the rest to the next one. */
  lemma OutcomePass(uc: ValidateCollection, cancelled: nat -> Option<Error>, calls: nat,
                    reqs: seq<RequestSpec>, vars: StringMap, i: nat, err: Option<Error>)
    requires i < |reqs| && cancelled(i).None? && uc.resolver.sample(calls + i).uuid.Ok?
    requires RequestResolves(Runtime(vars, Builtins(uc.resolver.sample(calls + i))), reqs[i])
    requires Outcome(uc, cancelled, calls, reqs, WithExtractKeys(vars, reqs[i].extract), i + 1, err)
    ensures Outcome(uc, cancelled, calls, reqs, vars, i, err)
  {
  }

  /** The three ways request `i` ends the validation. */
  lemma OutcomeStops(uc: ValidateCollection, cancelled: nat -> Option<Error>, calls: nat,
                     reqs: seq<RequestSpec>, vars: StringMap, i: nat, err: Option<Error>)
    requires i < |reqs|
    requires || (cancelled(i).Some? && err == cancelled(i))
             || (cancelled(i).None? && uc.resolver.sample(calls + i).uuid.Err?
                 && err == Some(RuntimeError(uc.resolver.sample(calls + i))))
             || (cancelled(i).None? && uc.resolver.sample(calls + i).uuid.Ok?
                 && exists r :: Runtime(vars, Builtins(uc.resolver.sample(calls + i))).RequestOutcome(reqs[i], r)
                                && r.Err? && err == Some(RequestError(reqs[i], r.error)))
    ensures Outcome(uc, cancelled, calls, reqs, vars, i, err)
  {
    var reading := uc.resolver.sample(calls + i);
    if cancelled(i).None? && reading.uuid.Ok? {
      var r :| Runtime(vars, Builtins(reading)).RequestOutcome(reqs[i], r) && r.Err? && err == Some(RequestError(reqs[i], r.error));
      RequestOutcomeOk(Runtime(vars, Builtins(reading)), reqs[i], r);
    }
  }

  /**
   * `ValidateCollection.Execute`. Load errors come back unchanged, the
   * collection's first; otherwise the result is an `Outcome` of the requests
   * from the merged scope.
   */
  method Execute(uc: ValidateCollection, cancelled: nat -> Option<Error>, calls: nat,
                 collectionPath: string, envNameOrPath: string)
    returns (err: Option<Error>)
    ensures uc.loadCollection(collectionPath).Err? ==> err == Some(uc.loadCollection(collectionPath).error)
    ensures uc.loadCollection(collectionPath).Ok? && uc.loadEnvironment(envNameOrPath).Err? ==>
      err == Some(uc.loadEnvironment(envNameOrPath).error)
    ensures uc.loadCollection(collectionPath).Ok? && uc.loadEnvironment(envNameOrPath).Ok? ==>
      var col := uc.loadCollection(collectionPath).value;
      Outcome(uc, cancelled, calls, col.requests, col.vars + uc.loadEnvironment(envNameOrPath).value.vars, 0, err)
  {
    var loaded := uc.loadCollection(collectionPath);
    if loaded.Err? {
      return Some(loaded.error);
    }
    var col := loaded.value;
    var envLoaded := uc.loadEnvironment(envNameOrPath);
    if envLoaded.Err? {
      return Some(envLoaded.error);
    }
    var vars := Orchestration.MergeVars(col.vars, envLoaded.value.vars);
    ghost var start := vars;
    var i := 0;
    while i < |col.requests|
      invariant 0 <= i <= |col.requests|
      invariant forall e :: Outcome(uc, cancelled, calls, col.requests, vars, i, e) ==>
                            Outcome(uc, cancelled, calls, col.requests, start, 0, e)
    {
      var req := col.requests[i];
      if cancelled(i).Some? {
        OutcomeStops(uc, cancelled, calls, col.requests, vars, i, cancelled(i));
        return cancelled(i);
      }
      var rt := NewRuntime(vars, uc.resolver.sample(calls + i));
      if rt.Err? {
        OutcomeStops(uc, cancelled, calls, col.requests, vars, i, Some(rt.error));
        return Some(rt.error);
      }
      var resolved := rt.value.ResolveRequest(req);
      RequestOutcomeOk(rt.value, req, resolved);
      if resolved.Err? {
        OutcomeStops(uc, cancelled, calls, col.requests, vars, i, Some(RequestError(req, resolved.error)));
        return Some(RequestError(req, resolved.error));
      }
      ghost var before := vars;
      vars := AddExtractKeys(vars, req.extract);
      forall e | Outcome(uc, cancelled, calls, col.requests, vars, i + 1, e)
        ensures Outcome(uc, cancelled, calls, col.requests, start, 0, e)
      {
        OutcomePass(uc, cancelled, calls, col.requests, before, i, e);
      }
      i := i + 1;
    }
    return None;
  }
}
