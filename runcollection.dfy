/**
 * The run orchestrator: load a collection and an environment, run every
 * request in declaration order against a variable scope that later requests
 * see extended by what earlier ones extracted, evaluate assertions and
 * extraction rules on each response, and hand the run to an optional store.
 * The loaders, the request runner and the store are ports; here they are
 * functions fixed for the duration of one run.
 */
module Orchestration {
  import opened Common
  import opened Errors
  import opened Json
  import opened Domain
  import Assertions
  import Extraction
  import Ordering

  /** `RunCollection`: its ports. A nil store is `None`. */
  datatype RunCollection = RunCollection(
    loadCollection: string -> Result<Collection, Error>,
    loadEnvironment: string -> Result<Environment, Error>,
    /** `RequestRunner.Run(ctx, req, vars)`; a runner error is `Err`. */
    runner: (RequestSpec, StringMap) -> Result<RequestResult, Error>,
    /** `domain.NewRunError`, not part of this model. */
    runError: Error -> RunError,
    store: Option<RunResult -> Result<string, Error>>)

  /** `domain.RunResult{}`. */
  const EmptyRun: RunResult := RunResult("", "", "", ZeroInstant, ZeroInstant, [])

  /** `for k, v := range src { dst[k] = v }`. */
  method CopyInto(dst: StringMap, src: StringMap) returns (out: StringMap)
    ensures out.Keys == dst.Keys + src.Keys
    ensures forall k :: k in src ==> out[k] == src[k]
    ensures forall k :: k in dst && k !in src ==> out[k] == dst[k]
    ensures out == dst + src
  {
    out := dst;
    var todo := src.Keys;
    while todo != {}
      invariant todo <= src.Keys
      invariant out.Keys == dst.Keys + (src.Keys - todo)
      invariant forall k :: k in src && k !in todo ==> out[k] == src[k]
      invariant forall k :: k in dst && (k !in src || k in todo) ==> out[k] == dst[k]
      decreases todo
    {
      var k :| k in todo;
      out := out[k := src[k]];
      todo := todo - {k};
    }
  }

  /**
   * `mergeVars`: a fresh map with every key of either input, the environment's
   * value where both have one. Neither input is changed (they are values).
   */
  method MergeVars(collectionVars: StringMap, envVars: StringMap) returns (out: StringMap)
    ensures out.Keys == collectionVars.Keys + envVars.Keys
    ensures forall k :: k in envVars ==> out[k] == envVars[k]
    ensures forall k :: k in collectionVars && k !in envVars ==> out[k] == collectionVars[k]
    ensures out == collectionVars + envVars
  {
    out := map[];
    out := CopyInto(out, collectionVars);
    out := CopyInto(out, envVars);
    assert map[] + collectionVars == collectionVars;
  }

  /** The result recorded for a request whose runner failed. */
  function RunnerFailed(req: RequestSpec, err: RunError): RequestResult {
    RequestResult(req.name, req.verb, req.url, 0, 0, [], [], map[], EmptySnapshot, Some(err))
  }

  /**
   * The orders in which the assertion evaluator and the extraction engine visit
   * a request's rules: any order for the assertions, the sorted one for the
   * extraction rules.
   */
  ghost predicate Fits(req: RequestSpec, assertOrder: seq<string>, extractOrder: seq<string>) {
    IsEnumeration(assertOrder, req.assertions.jsonPath.Keys)
    && Ordering.StrictlySorted(extractOrder) && |extractOrder| == |req.extract|
    && (forall k :: k in extractOrder <==> k in req.extract)
  }

  /** What one request of the loop records when it runs in `scope` with the given rule orders. */
  ghost function Serve(uc: RunCollection, lib: JsonLib, req: RequestSpec, scope: StringMap,
                       assertOrder: seq<string>, extractOrder: seq<string>): RequestResult
    requires Fits(req, assertOrder, extractOrder)
  {
    match uc.runner(req, scope)
    case Err(e) => RunnerFailed(req, uc.runError(e))
    case Ok(rr) =>
      var body := rr.response.body;
      var doc := lib.parse(body);
      rr.(assertions := Assertions.Evaluation(lib, req.assertions, rr.statusCode, rr.latencyMs, body, assertOrder),
          extracts := Extraction.Results(lib, doc, req.extract, extractOrder),
          extracted := Extraction.Extracted(lib, doc, req.extract, extractOrder))
  }

  /**
   * A runner error gives the error-only result, which extracts nothing;
   * otherwise the runner's result is kept except for its assertion results,
   * extraction reports and extracted variables, which are those of the
   * evaluator and the engine on the response body.
   */
  lemma ServeMeans(uc: RunCollection, lib: JsonLib, req: RequestSpec, scope: StringMap,
                   assertOrder: seq<string>, extractOrder: seq<string>)
    requires Fits(req, assertOrder, extractOrder)
    ensures var r := Serve(uc, lib, req, scope, assertOrder, extractOrder);
      (uc.runner(req, scope).Err? ==>
        r == RunnerFailed(req, uc.runError(uc.runner(req, scope).error)) && r.extracted == map[])
      && (uc.runner(req, scope).Ok? ==>
        var rr := uc.runner(req, scope).value;
        var doc := lib.parse(rr.response.body);
        r.(assertions := rr.assertions, extracts := rr.extracts, extracted := rr.extracted) == rr
        && r.assertions == Assertions.Evaluation(lib, req.assertions, rr.statusCode, rr.latencyMs,
                                                 rr.response.body, assertOrder)
        && r.extracts == Extraction.Results(lib, doc, req.extract, extractOrder)
        && r.extracted == Extraction.Extracted(lib, doc, req.extract, extractOrder))
  {
  }

  /** The scope after `results`: each request's extracted variables laid over the scope before it. */
  function ScopeAfter(scope: StringMap, results: seq<RequestResult>): StringMap {
    if results == [] then scope
    else ScopeAfter(scope, results[..|results| - 1]) + results[|results| - 1].extracted
  }

  /**
   * The scope only grows; a key is in it exactly when it was there at the start
   * or some request extracted it; and an entry keeps its value unless some
   * request's extraction set that key (a key whose extraction failed is not
   * among the extracted ones, so it keeps its prior value).
   */
  lemma {:induction false} ScopeAfterMeans(scope: StringMap, results: seq<RequestResult>, k: string)
    ensures var after := ScopeAfter(scope, results);
      scope.Keys <= after.Keys
      && (k in after <==> k in scope || exists i :: 0 <= i < |results| && k in results[i].extracted)
      && (k in scope && (forall i :: 0 <= i < |results| ==> k !in results[i].extracted) ==> after[k] == scope[k])
  {
    if results != [] {
      var n := |results| - 1;
      ScopeAfterMeans(scope, results[..n], k);
      assert forall i :: 0 <= i < n ==> results[..n][i] == results[i];
      if k in results[n].extracted {
        assert exists i :: 0 <= i < |results| && k in results[i].extracted;
      }
      if exists i :: 0 <= i < |results| && k in results[i].extracted {
        var i :| 0 <= i < |results| && k in results[i].extracted;
        if i < n {
          assert k in results[..n][i].extracted;
        }
      }
    }
  }

  /** A later extraction of the same key wins. */
  lemma LastExtractionWins(scope: StringMap, results: seq<RequestResult>, k: string)
    requires results != [] && k in results[|results| - 1].extracted
    ensures ScopeAfter(scope, results)[k] == results[|results| - 1].extracted[k]
  {
  }

  /**
   * `results` is what the loop of `Execute` records for the first `n` requests
   * of `reqs` from `scope`: exactly one result per request, in declaration
   * order, each request running in the scope left by those before it.
   */
  ghost predicate Ran(uc: RunCollection, lib: JsonLib, reqs: seq<RequestSpec>, n: nat, scope: StringMap,
                      assertOrders: seq<seq<string>>, extractOrders: seq<seq<string>>, results: seq<RequestResult>) {
    n <= |reqs| && |assertOrders| == n && |extractOrders| == n && |results| == n
    && (forall i :: 0 <= i < n ==> Fits(reqs[i], assertOrders[i], extractOrders[i]))
    && (forall i :: 0 <= i < n ==>
          results[i] == Serve(uc, lib, reqs[i], ScopeAfter(scope, results[..i]), assertOrders[i], extractOrders[i]))
  }

  /**
   * `RunCollection.Execute`, reading the clock as `startedAt` before the loop and
   * `endedAt` after it. The ghost outputs are the orders in which each request's
   * assertion and extraction rules were visited.
   */
  method Execute(uc: RunCollection, lib: JsonLib, collectionPath: string, envNameOrPath: string,
                 startedAt: Instant, endedAt: Instant)
    returns (run: RunResult, id: string, err: Option<Error>,
             ghost assertOrders: seq<seq<string>>, ghost extractOrders: seq<seq<string>>)
    ensures uc.loadCollection(collectionPath).Err? ==>
      run == EmptyRun && id == "" && err == Some(uc.loadCollection(collectionPath).error)
    ensures uc.loadCollection(collectionPath).Ok? && uc.loadEnvironment(envNameOrPath).Err? ==>
      run == EmptyRun && id == "" && err == Some(uc.loadEnvironment(envNameOrPath).error)
    ensures uc.loadCollection(collectionPath).Ok? && uc.loadEnvironment(envNameOrPath).Ok? ==>
      var col := uc.loadCollection(collectionPath).value;
      var env := uc.loadEnvironment(envNameOrPath).value;
      run.collectionName == col.name && run.collectionPath == collectionPath
      && run.environmentName == env.name && run.startedAt == startedAt && run.endedAt == endedAt
      && Ran(uc, lib, col.requests, |col.requests|, col.vars + env.vars, assertOrders, extractOrders, run.results)
      && (uc.store.None? ==> id == "" && err.None?)
      && (uc.store.Some? && uc.store.value(run).Err? ==> id == "" && err == Some(uc.store.value(run).error))
      && (uc.store.Some? && uc.store.value(run).Ok? ==> id == uc.store.value(run).value && err.None?)
  {
    assertOrders, extractOrders := [], [];
    var loaded := uc.loadCollection(collectionPath);
    if loaded.Err? {
      return EmptyRun, "", Some(loaded.error), assertOrders, extractOrders;
    }
    var col := loaded.value;
    var envLoaded := uc.loadEnvironment(envNameOrPath);
    if envLoaded.Err? {
      return EmptyRun, "", Some(envLoaded.error), assertOrders, extractOrders;
    }
    var env := envLoaded.value;
    var vars := MergeVars(col.vars, env.vars);
    ghost var start := vars;
    var results: seq<RequestResult> := [];
    var i := 0;
    while i < |col.requests|
      invariant 0 <= i <= |col.requests|
      invariant Ran(uc, lib, col.requests, i, start, assertOrders, extractOrders, results)
      invariant vars == ScopeAfter(start, results)
    {
      var req := col.requests[i];
      var result, nextVars, aOrder, xOrder := RunOne(uc, lib, req, vars);
      RanExtend(uc, lib, col.requests, start, assertOrders, extractOrders, results, i, result, aOrder, xOrder);
      results := results + [result];
      vars := nextVars;
      assert results[..i] == results[..|results| - 1];
      assertOrders := assertOrders + [aOrder];
      extractOrders := extractOrders + [xOrder];
      i := i + 1;
    }
    run := RunResult(col.name, collectionPath, env.name, startedAt, endedAt, results);
    if uc.store.None? {
      return run, "", None, assertOrders, extractOrders;
    }
    var saved := uc.store.value(run);
    if saved.Err? {
      return run, "", Some(saved.error), assertOrders, extractOrders;
    }
    return run, saved.value, None, assertOrders, extractOrders;
  }

  /** One more iteration of the loop keeps `Ran`. */
  lemma RanExtend(uc: RunCollection, lib: JsonLib, reqs: seq<RequestSpec>, scope: StringMap,
                  assertOrders: seq<seq<string>>, extractOrders: seq<seq<string>>, results: seq<RequestResult>,
                  i: nat, result: RequestResult, aOrder: seq<string>, xOrder: seq<string>)
    requires i < |reqs|
    requires Ran(uc, lib, reqs, i, scope, assertOrders, extractOrders, results)
    requires Fits(reqs[i], aOrder, xOrder)
    requires result == Serve(uc, lib, reqs[i], ScopeAfter(scope, results), aOrder, xOrder)
    ensures Ran(uc, lib, reqs, i + 1, scope, assertOrders + [aOrder], extractOrders + [xOrder], results + [result])
  {
    var rs := results + [result];
    var aos := assertOrders + [aOrder];
    var xos := extractOrders + [xOrder];
    assert rs[..i] == results;
    forall j | 0 <= j < i + 1
      ensures Fits(reqs[j], aos[j], xos[j])
      ensures rs[j] == Serve(uc, lib, reqs[j], ScopeAfter(scope, rs[..j]), aos[j], xos[j])
    {
      if j < i {
        assert rs[..j] == results[..j];
        assert aos[j] == assertOrders[j] && xos[j] == extractOrders[j] && rs[j] == results[j];
      }
    }
  }

  /** Rule orders for a request whose runner failed, which visits no rule. */
  ghost function SomeOrders(req: RequestSpec): (r: (seq<string>, seq<string>))
    ensures Fits(req, r.0, r.1)
  {
    var assertOrder := Ordering.SortedOf(req.assertions.jsonPath.Keys);
    Ordering.SortedDistinct(assertOrder);
    (assertOrder, Ordering.SortedOf(req.extract.Keys))
  }

  lemma ServeFailed(uc: RunCollection, lib: JsonLib, req: RequestSpec, scope: StringMap,
                    assertOrder: seq<string>, extractOrder: seq<string>)
    requires Fits(req, assertOrder, extractOrder)
    requires uc.runner(req, scope).Err?
    ensures Serve(uc, lib, req, scope, assertOrder, extractOrder)
         == RunnerFailed(req, uc.runError(uc.runner(req, scope).error))
  {
  }

  lemma ServeRan(uc: RunCollection, lib: JsonLib, req: RequestSpec, scope: StringMap,
                 assertOrder: seq<string>, extractOrder: seq<string>, rr: RequestResult)
    requires Fits(req, assertOrder, extractOrder)
    requires uc.runner(req, scope) == Ok(rr)
    ensures Serve(uc, lib, req, scope, assertOrder, extractOrder)
         == rr.(assertions := Assertions.Evaluation(lib, req.assertions, rr.statusCode, rr.latencyMs,
                                                    rr.response.body, assertOrder),
                extracts := Extraction.Results(lib, lib.parse(rr.response.body), req.extract, extractOrder),
                extracted := Extraction.Extracted(lib, lib.parse(rr.response.body), req.extract, extractOrder))
  {
  }

  /** The body of `Execute`'s loop: run one request and lay what it extracted over the scope. */
  method RunOne(uc: RunCollection, lib: JsonLib, req: RequestSpec, vars: StringMap)
    returns (result: RequestResult, nextVars: StringMap, ghost assertOrder: seq<string>,
             ghost extractOrder: seq<string>)
    ensures Fits(req, assertOrder, extractOrder)
    ensures result == Serve(uc, lib, req, vars, assertOrder, extractOrder)
    ensures nextVars == vars + result.extracted
  {
    var rr := uc.runner(req, vars);
    if rr.Err? {
      ghost var orders := SomeOrders(req);
      assertOrder, extractOrder := orders.0, orders.1;
      ServeFailed(uc, lib, req, vars, assertOrder, extractOrder);
      result := RunnerFailed(req, uc.runError(rr.error));
      assert vars + result.extracted == vars;
      return result, vars, assertOrder, extractOrder;
    }
    var body := rr.value.response.body;
    var checks;
    checks, assertOrder := Assertions.Evaluate(lib, req.assertions, rr.value.statusCode, rr.value.latencyMs, body);
    var extracted, reports;
    extracted, reports, extractOrder := Extraction.Apply(lib, body, req.extract);
    ServeRan(uc, lib, req, vars, assertOrder, extractOrder, rr.value);
    result := rr.value.(assertions := checks, extracts := reports, extracted := extracted);
    nextVars := CopyInto(vars, extracted);
  }
}
