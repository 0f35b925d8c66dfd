/**
 * The `lynix run` command after the run itself: deciding which requests
 * failed, counting them and the assertion and extract outcomes, choosing the
 * output format, and turning failures into the command's error. Writing the
 * report is output and is not modelled.
 */
module RunCommand {
  import opened Common
  import opened Text
  import opened Errors
  import opened Domain

  /** A request failed when it has an error, a failed assertion or a failed extract. */
  predicate RequestFailed(r: RequestResult) {
    || r.error.Some?
    || (exists i :: 0 <= i < |r.assertions| && !r.assertions[i].passed)
    || (exists i :: 0 <= i < |r.extracts| && !r.extracts[i].success)
  }

  /** `isRequestFailed`: the error, then the assertions and the extracts, each loop returning early. */
  method IsRequestFailed(r: RequestResult) returns (failed: bool)
    ensures failed == RequestFailed(r)
  {
    if r.error.Some? {
      return true;
    }
    for i := 0 to |r.assertions|
      invariant forall k :: 0 <= k < i ==> r.assertions[k].passed
    {
      if !r.assertions[i].passed {
        return true;
      }
    }
    for i := 0 to |r.extracts|
      invariant forall k :: 0 <= k < i ==> r.extracts[k].success
    {
      if !r.extracts[i].success {
        return true;
      }
    }
    return false;
  }

  /** The number of failed requests among `rs`. */
  function FailureCount(rs: seq<RequestResult>): nat
    decreases |rs|
  {
    if rs == [] then 0
    else FailureCount(rs[..|rs| - 1]) + (if RequestFailed(rs[|rs| - 1]) then 1 else 0)
  }

  /** The count is at most the number of results, and zero exactly when no request failed. */
  lemma {:induction false} FailureCountMeans(rs: seq<RequestResult>)
    ensures FailureCount(rs) <= |rs|
    ensures FailureCount(rs) == 0 <==> forall i :: 0 <= i < |rs| ==> !RequestFailed(rs[i])
    ensures FailureCount(rs) == |rs| <==> forall i :: 0 <= i < |rs| ==> RequestFailed(rs[i])
    decreases |rs|
  {
    if rs != [] {
      var n := |rs| - 1;
      FailureCountMeans(rs[..n]);
      assert forall i :: 0 <= i < n ==> rs[..n][i] == rs[i];
    }
  }

  /** `countFailures`. */
  method CountFailures(run: RunResult) returns (n: nat)
    ensures n == FailureCount(run.results)
  {
    n := 0;
    var rs := run.results;
    for i := 0 to |rs|
      invariant n == FailureCount(rs[..i])
    {
      assert rs[..i + 1][..i] == rs[..i];
      var failed := IsRequestFailed(rs[i]);
      if failed {
        n := n + 1;
      }
    }
    assert rs[..|rs|] == rs;
  }

  /** The number of assertions that passed. */
  function PassedCount(as_: seq<AssertionResult>): nat
    decreases |as_|
  {
    if as_ == [] then 0
    else PassedCount(as_[..|as_| - 1]) + (if as_[|as_| - 1].passed then 1 else 0)
  }

  /** At most every assertion passes, and all do exactly when none failed. */
  lemma {:induction false} PassedCountMeans(as_: seq<AssertionResult>)
    ensures PassedCount(as_) <= |as_|
    ensures PassedCount(as_) == |as_| <==> forall i :: 0 <= i < |as_| ==> as_[i].passed
    decreases |as_|
  {
    if as_ != [] {
      var n := |as_| - 1;
      PassedCountMeans(as_[..n]);
      assert forall i :: 0 <= i < n ==> as_[..n][i] == as_[i];
    }
  }

  /** `countAssertionPassFail`: every assertion is counted once, as a pass or as a fail. */
  method CountAssertionPassFail(as_: seq<AssertionResult>) returns (pass: nat, fail: nat)
    ensures pass == PassedCount(as_)
    ensures pass + fail == |as_|
  {
    pass, fail := 0, 0;
    for i := 0 to |as_|
      invariant pass == PassedCount(as_[..i])
      invariant pass + fail == i
    {
      assert as_[..i + 1][..i] == as_[..i];
      if as_[i].passed {
        pass := pass + 1;
      } else {
        fail := fail + 1;
      }
    }
    assert as_[..|as_|] == as_;
  }

  /** The number of extracts that succeeded. */
  function SucceededCount(es: seq<ExtractResult>): nat
    decreases |es|
  {
    if es == [] then 0
    else SucceededCount(es[..|es| - 1]) + (if es[|es| - 1].success then 1 else 0)
  }

  /** At most every extract succeeds, and all do exactly when none failed. */
  lemma {:induction false} SucceededCountMeans(es: seq<ExtractResult>)
    ensures SucceededCount(es) <= |es|
    ensures SucceededCount(es) == |es| <==> forall i :: 0 <= i < |es| ==> es[i].success
    decreases |es|
  {
    if es != [] {
      var n := |es| - 1;
      SucceededCountMeans(es[..n]);
      assert forall i :: 0 <= i < n ==> es[..n][i] == es[i];
    }
  }

  /** `countExtractPassFail`: every extract is counted once, as ok or as bad. */
  method CountExtractPassFail(es: seq<ExtractResult>) returns (ok: nat, bad: nat)
    ensures ok == SucceededCount(es)
    ensures ok + bad == |es|
  {
    ok, bad := 0, 0;
    for i := 0 to |es|
      invariant ok == SucceededCount(es[..i])
      invariant ok + bad == i
    {
      assert es[..i + 1][..i] == es[..i];
      if es[i].success {
        ok := ok + 1;
      } else {
        bad := bad + 1;
      }
    }
    assert es[..|es|] == es;
  }

  /** A request without an error has failed exactly when not all its assertions passed or not all its extracts succeeded. */
  lemma RequestFailedByCounts(r: RequestResult)
    ensures RequestFailed(r) <==>
      r.error.Some? || PassedCount(r.assertions) < |r.assertions| || SucceededCount(r.extracts) < |r.extracts|
  {
    PassedCountMeans(r.assertions);
    SucceededCountMeans(r.extracts);
  }

  /** The report formats `printRun` knows. */
  datatype Format = Json | Pretty

  /** `printRun`'s switch: `json`, `pretty`, or the empty string for pretty; anything else is refused. */
  function OutputFormat(format: string): (r: Result<Format, Error>)
    ensures r == Ok(Json) <==> format == "json"
    ensures r == Ok(Pretty) <==> format == "pretty" || format == ""
    ensures r.Err? ==> r.error == Leaf("unsupported format " + Quote(format) + " (expected pretty|json)")
  {
    match format
    case "json" => Ok(Json)
    case "pretty" => Ok(Pretty)
    case "" => Ok(Pretty)
    case _ => Err(Leaf("unsupported format " + Quote(format) + " (expected pretty|json)"))
  }

  /** The refusal names the format: two unsupported formats give two different errors. */
  lemma OutputFormatNamesIt(a: string, b: string)
    requires OutputFormat(a).Err? && OutputFormat(b).Err? && OutputFormat(a) == OutputFormat(b)
    ensures a == b
  {
    var pre := "unsupported format ";
    var post := " (expected pretty|json)";
    var ma := pre + Quote(a) + post;
    var mb := pre + Quote(b) + post;
    assert ma == mb;
    assert Quote(a) == ma[|pre|..|ma| - |post|];
    assert Quote(b) == mb[|pre|..|mb| - |post|];
    QuoteInjective(a, b);
  }

  /** The label of a request in the pretty report. */
  function StatusLabel(r: RequestResult): (tag: string)
    ensures tag == "FAIL" <==> RequestFailed(r)
    ensures tag == "OK" <==> !RequestFailed(r)
  {
    if RequestFailed(r) then "FAIL" else "OK"
  }

  /** The error of a run whose requests did not all succeed. */
  function RunFailed(fails: nat): Error {
    Leaf("run failed (" + NatToString(fails) + " failed request(s))")
  }

  /**
   * The end of `RunE`: a failed execution or an unknown format is the
   * command's error; otherwise the command fails exactly when a request
   * failed, reporting how many.
   */
  function CommandError(executed: Option<Error>, run: RunResult, format: string): Option<Error> {
    if executed.Some? then executed
    else if OutputFormat(format).Err? then Some(OutputFormat(format).error)
    else if FailureCount(run.results) > 0 then Some(RunFailed(FailureCount(run.results)))
    else None
  }

  /**
   * With the run executed and the format known, the command fails exactly
   * when some request failed, and its error says how many failed.
   */
  lemma CommandErrorMeans(executed: Option<Error>, run: RunResult, format: string)
    ensures executed.Some? ==> CommandError(executed, run, format) == executed
    ensures executed.None? && OutputFormat(format).Ok? ==>
      (CommandError(executed, run, format).Some? <==> exists i :: 0 <= i < |run.results| && RequestFailed(run.results[i]))
    ensures executed.None? && OutputFormat(format).Ok? && CommandError(executed, run, format).Some? ==>
      CommandError(executed, run, format) == Some(RunFailed(FailureCount(run.results)))
      && 0 < FailureCount(run.results) <= |run.results|
  {
    FailureCountMeans(run.results);
  }
}
