/**
 * The assertion evaluator: a status check, a latency bound and, per JSONPath
 * expression, up to six checks on the value the expression selects from the
 * response body. Results come out in a fixed order: status, latency, then the
 * checks of each expression in the order exists, eq, contains, matches, gt, lt.
 * The expressions themselves are visited in Go's map order, which is not
 * fixed: `Evaluate` promises its output for the order it happened to use.
 */
module Assertions {
  import opened Common
  import opened Text
  import opened Errors
  import opened Json
  import opened Domain

  const NotJson: Error := Leaf("response body is not valid JSON")

  /** `Status`: passes exactly when the observed status is the expected one. */
  function Status(expected: int, got: int): (r: AssertionResult)
    ensures r.name == "status"
    ensures r.passed <==> got == expected
    ensures r.passed ==> r.message == "status " + IntToString(got)
    ensures !r.passed ==> r.message == "expected status " + IntToString(expected) + ", got " + IntToString(got)
  {
    if got == expected then AssertionResult("status", true, "status " + IntToString(got))
    else AssertionResult("status", false,
      "expected status " + IntToString(expected) + ", got " + IntToString(got))
  }

  /** `MaxLatency`: passes when the latency is at most the bound, the bound included. */
  function MaxLatency(maxMs: int, latencyMs: int): (r: AssertionResult)
    ensures r.name == "max_ms"
    ensures r.passed <==> latencyMs <= maxMs
    ensures r.passed ==> r.message == "latency " + IntToString(latencyMs) + "ms <= " + IntToString(maxMs) + "ms"
    ensures !r.passed ==>
      r.message == "expected latency <= " + IntToString(maxMs) + "ms, got " + IntToString(latencyMs) + "ms"
  {
    if latencyMs <= maxMs then
      AssertionResult("max_ms", true, "latency " + IntToString(latencyMs) + "ms <= " + IntToString(maxMs) + "ms")
    else
      AssertionResult("max_ms", false,
        "expected latency <= " + IntToString(maxMs) + "ms, got " + IntToString(latencyMs) + "ms")
  }

  /** The failure message for a status of 500 where 200 was expected. */
  lemma StatusFailureMessage()
    ensures Status(200, 500).message == "expected status 200, got 500"
  {
    assert Status(200, 500).message == "expected status " + IntToString(200) + ", got " + IntToString(500);
    ThreeDigits(2, 0, 0);
    ThreeDigits(5, 0, 0);
    StatusText(IntToString(200), IntToString(500));
  }

  lemma StatusText(e: string, g: string)
    requires e == "200" && g == "500"
    ensures "expected status " + e + ", got " + g == "expected status 200, got 500"
  {
  }

  /** The failure message for a latency of 250 ms against a bound of 100 ms. */
  lemma LatencyFailureMessage()
    ensures MaxLatency(100, 250).message == "expected latency <= 100ms, got 250ms"
  {
    assert MaxLatency(100, 250).message == "expected latency <= " + IntToString(100) + "ms, got " + IntToString(250) + "ms";
    ThreeDigits(1, 0, 0);
    ThreeDigits(2, 5, 0);
    LatencyText(IntToString(100), IntToString(250));
  }

  lemma LatencyText(m: string, l: string)
    requires m == "100" && l == "250"
    ensures "expected latency <= " + m + "ms, got " + l + "ms" == "expected latency <= 100ms, got 250ms"
  {
  }

  /** A three-digit number prints as its three digits. */
  lemma ThreeDigits(a: nat, b: nat, c: nat)
    requires 1 <= a < 10 && b < 10 && c < 10
    ensures IntToString(100 * a + 10 * b + c) == ["0123456789"[a], "0123456789"[b], "0123456789"[c]]
  {
    var n := 100 * a + 10 * b + c;
    assert n / 10 == 10 * a + b && n % 10 == c;
    assert (10 * a + b) / 10 == a && (10 * a + b) % 10 == b;
    assert NatToString(10 * a + b) == [Digit(a), Digit(b)];
  }

  /** `jsonPathToString`. */
  function ToText(lib: JsonLib, v: Json): (r: Result<string, Error>)
    ensures r.Err? <==> v == Null
    ensures v.Str? ==> r == Ok(v.s)
  {
    match v
    case Str(s) => Ok(s)
    case Num(n) => Ok(lib.formatFloat(n))
    case Bool(b) => Ok(if b then "true" else "false")
    case Null => Err(Leaf("value is null"))
    case _ => Ok(lib.sprint(v))
  }

  /** Go's `%T` of a decoded JSON value. */
  function TypeName(v: Json): string {
    match v
    case Null => "<nil>"
    case Bool(_) => "bool"
    case Num(_) => "float64"
    case Str(_) => "string"
    case Arr(_) => "[]interface {}"
    case Obj(_) => "map[string]interface {}"
  }

  /** `jsonPathToFloat64`: a number, or a string that parses as one. */
  function ToNumber(lib: JsonLib, v: Json): (r: Result<real, Error>)
    ensures r.Ok? <==> v.Num? || (v.Str? && lib.parseFloat(v.s).Some?)
    ensures v.Num? ==> r == Ok(v.n)
  {
    match v
    case Num(n) => Ok(n)
    case Str(s) =>
      (match lib.parseFloat(s)
       case Some(f) => Ok(f)
       case None => Err(Leaf("value " + Quote(s) + " is not numeric")))
    case _ => Err(Leaf("value of type " + TypeName(v) + " is not numeric"))
  }

  /** The `jsonpath "<expr>"` prefix every check message starts with. */
  function Subject(expr: string): string {
    "jsonpath " + Quote(expr)
  }

  /** A failed check reporting an error. */
  function Failure(name: string, expr: string, e: Error): AssertionResult {
    AssertionResult(name, false, Subject(expr) + ": " + Message(e))
  }

  /** `checkExists`: the lookup succeeded and selected a non-empty value. */
  function CheckExists(expr: string, got: Result<Json, Error>): (r: AssertionResult)
    ensures r.name == "jsonpath.exists"
    ensures r.passed <==> got.Ok? && !IsEmptyValue(got.value)
  {
    match got
    case Err(e) => AssertionResult("jsonpath.exists", false, "invalid jsonpath " + Quote(expr) + ": " + Message(e))
    case Ok(v) =>
      if IsEmptyValue(v) then
        AssertionResult("jsonpath.exists", false, Subject(expr) + ": expected value to exist, got empty")
      else AssertionResult("jsonpath.exists", true, Subject(expr) + " exists")
  }

  /** The text of the selected value, or the error that prevents comparing it. */
  function TextOf(lib: JsonLib, got: Result<Json, Error>): Result<string, Error> {
    match got
    case Err(e) => Err(e)
    case Ok(v) => ToText(lib, v)
  }

  /** `checkEq`: the selected value, as text, is the expected text. */
  function CheckEq(lib: JsonLib, expr: string, got: Result<Json, Error>, expected: string): (r: AssertionResult)
    ensures r.name == "jsonpath.eq"
    ensures r.passed <==> got.Ok? && got.value != Null && ToText(lib, got.value) == Ok(expected)
  {
    match TextOf(lib, got)
    case Err(e) => Failure("jsonpath.eq", expr, e)
    case Ok(s) =>
      if s == expected then AssertionResult("jsonpath.eq", true, Subject(expr) + " eq " + Quote(expected))
      else AssertionResult("jsonpath.eq", false,
        Subject(expr) + ": expected " + Quote(expected) + ", got " + Quote(s))
  }

  /** `checkContains`: the selected value, as text, contains `sub`. */
  function CheckContains(lib: JsonLib, expr: string, got: Result<Json, Error>, sub: string): (r: AssertionResult)
    ensures r.name == "jsonpath.contains"
    ensures r.passed <==> got.Ok? && got.value != Null && Contains(ToText(lib, got.value).value, sub)
  {
    match TextOf(lib, got)
    case Err(e) => Failure("jsonpath.contains", expr, e)
    case Ok(s) =>
      if Contains(s, sub) then AssertionResult("jsonpath.contains", true, Subject(expr) + " contains " + Quote(sub))
      else AssertionResult("jsonpath.contains", false,
        Subject(expr) + ": " + Quote(s) + " does not contain " + Quote(sub))
  }

  /** `checkMatches`: the pattern compiles and matches the selected value, as text. */
  function CheckMatches(lib: JsonLib, expr: string, got: Result<Json, Error>, pattern: string): (r: AssertionResult)
    ensures r.name == "jsonpath.matches"
    ensures r.passed <==> got.Ok? && got.value != Null
                          && lib.matchRegex(pattern, ToText(lib, got.value).value) == Ok(true)
  {
    match TextOf(lib, got)
    case Err(e) => Failure("jsonpath.matches", expr, e)
    case Ok(s) =>
      match lib.matchRegex(pattern, s)
      case Err(e) =>
        AssertionResult("jsonpath.matches", false,
          Subject(expr) + ": invalid regex " + Quote(pattern) + ": " + Message(e))
      case Ok(true) => AssertionResult("jsonpath.matches", true, Subject(expr) + " matches " + Quote(pattern))
      case Ok(false) =>
        AssertionResult("jsonpath.matches", false,
          Subject(expr) + ": " + Quote(s) + " does not match " + Quote(pattern))
  }

  /** The number the selected value denotes, or the error that prevents comparing it. */
  function NumberOf(lib: JsonLib, got: Result<Json, Error>): Result<real, Error> {
    match got
    case Err(e) => Err(e)
    case Ok(v) => ToNumber(lib, v)
  }

  /** `checkGt`: the selected value is a number above the threshold. */
  function CheckGt(lib: JsonLib, expr: string, got: Result<Json, Error>, threshold: real): (r: AssertionResult)
    ensures r.name == "jsonpath.gt"
    ensures r.passed <==> got.Ok? && ToNumber(lib, got.value).Ok? && ToNumber(lib, got.value).value > threshold
  {
    match NumberOf(lib, got)
    case Err(e) => Failure("jsonpath.gt", expr, e)
    case Ok(f) =>
      if f > threshold then
        AssertionResult("jsonpath.gt", true, Subject(expr) + ": " + lib.sprintFloat(f) + " > " + lib.sprintFloat(threshold))
      else
        AssertionResult("jsonpath.gt", false,
          Subject(expr) + ": expected > " + lib.sprintFloat(threshold) + ", got " + lib.sprintFloat(f))
  }

  /** `checkLt`: the selected value is a number below the threshold. */
  function CheckLt(lib: JsonLib, expr: string, got: Result<Json, Error>, threshold: real): (r: AssertionResult)
    ensures r.name == "jsonpath.lt"
    ensures r.passed <==> got.Ok? && ToNumber(lib, got.value).Ok? && ToNumber(lib, got.value).value < threshold
  {
    match NumberOf(lib, got)
    case Err(e) => Failure("jsonpath.lt", expr, e)
    case Ok(f) =>
      if f < threshold then
        AssertionResult("jsonpath.lt", true, Subject(expr) + ": " + lib.sprintFloat(f) + " < " + lib.sprintFloat(threshold))
      else
        AssertionResult("jsonpath.lt", false,
          Subject(expr) + ": expected < " + lib.sprintFloat(threshold) + ", got " + lib.sprintFloat(f))
  }

  /** One check a JSONPath assertion can ask for, with its operand. */
  datatype Check =
    | Exists
    | Eq(want: string)
    | Includes(sub: string)
    | Matches(pattern: string)
    | Above(threshold: real)
    | Below(threshold: real)

  /** The position of a check in the fixed order exists, eq, contains, matches, gt, lt. */
  function Rank(c: Check): nat {
    match c
    case Exists => 0
    case Eq(_) => 1
    case Includes(_) => 2
    case Matches(_) => 3
    case Above(_) => 4
    case Below(_) => 5
  }

  function CheckName(c: Check): string {
    match c
    case Exists => "jsonpath.exists"
    case Eq(_) => "jsonpath.eq"
    case Includes(_) => "jsonpath.contains"
    case Matches(_) => "jsonpath.matches"
    case Above(_) => "jsonpath.gt"
    case Below(_) => "jsonpath.lt"
  }

  /** Whether the assertion sets check `c`, with that operand. */
  predicate Asks(a: JsonPathAssertion, c: Check) {
    match c
    case Exists => a.mustExist
    case Eq(s) => a.eq == Some(s)
    case Includes(s) => a.contains == Some(s)
    case Matches(s) => a.matches == Some(s)
    case Above(t) => a.gt == Some(t)
    case Below(t) => a.lt == Some(t)
  }

  /** The check of rank `k` when the assertion sets it: one `if` of `jsonPathChecks`. */
  function Slot(a: JsonPathAssertion, k: nat): (r: seq<Check>)
    requires k < 6
    ensures |r| <= 1 && forall c :: c in r <==> Asks(a, c) && Rank(c) == k
  {
    if k == 0 then (if a.mustExist then [Exists] else [])
    else if k == 1 then (if a.eq.Some? then [Eq(a.eq.value)] else [])
    else if k == 2 then (if a.contains.Some? then [Includes(a.contains.value)] else [])
    else if k == 3 then (if a.matches.Some? then [Matches(a.matches.value)] else [])
    else if k == 4 then (if a.gt.Some? then [Above(a.gt.value)] else [])
    else (if a.lt.Some? then [Below(a.lt.value)] else [])
  }

  /** The checks of rank `k` and above, in rank order. */
  function RequestedFrom(a: JsonPathAssertion, k: nat): seq<Check>
    requires k <= 6
    decreases 6 - k
  {
    if k == 6 then [] else Slot(a, k) + RequestedFrom(a, k + 1)
  }

  /** The checks `jsonPathChecks` runs for an assertion, one `if` after the other. */
  function Requested(a: JsonPathAssertion): seq<Check> {
    RequestedFrom(a, 0)
  }

  lemma {:induction false} RequestedFromInOrder(a: JsonPathAssertion, k: nat)
    requires k <= 6
    ensures var r := RequestedFrom(a, k);
      (forall c :: c in r <==> Asks(a, c) && Rank(c) >= k)
      && (forall i, j :: 0 <= i < j < |r| ==> Rank(r[i]) < Rank(r[j]))
    decreases 6 - k
  {
    if k < 6 {
      RequestedFromInOrder(a, k + 1);
      var r := RequestedFrom(a, k);
      var head := Slot(a, k);
      var tail := RequestedFrom(a, k + 1);
      assert r == head + tail;
      forall i, j | 0 <= i < j < |r|
        ensures Rank(r[i]) < Rank(r[j])
      {
        if j < |head| {
        } else if i < |head| {
          assert r[i] in head && r[j] in tail;
        } else {
          assert r[i] == tail[i - |head|] && r[j] == tail[j - |head|];
        }
      }
    }
  }

  /** An assertion with every field unset. */
  predicate SetsNothing(a: JsonPathAssertion) {
    !a.mustExist && a.eq.None? && a.contains.None? && a.matches.None? && a.gt.None? && a.lt.None?
  }

  lemma SetsNothingAsksNothing(a: JsonPathAssertion)
    ensures SetsNothing(a) <==> forall c :: !Asks(a, c)
  {
    if !SetsNothing(a) {
      var c :=
        if a.mustExist then Exists
        else if a.eq.Some? then Eq(a.eq.value)
        else if a.contains.Some? then Includes(a.contains.value)
        else if a.matches.Some? then Matches(a.matches.value)
        else if a.gt.Some? then Above(a.gt.value)
        else Below(a.lt.value);
      assert Asks(a, c);
    }
  }

  /**
   * An assertion asks for exactly the checks it sets, each once, in the fixed
   * order; `exists: false` with nothing else set asks for none.
   */
  lemma RequestedInOrder(a: JsonPathAssertion)
    ensures var r := Requested(a);
      (forall c :: c in r <==> Asks(a, c))
      && (forall i, j :: 0 <= i < j < |r| ==> Rank(r[i]) < Rank(r[j]))
      && (r == [] <==> SetsNothing(a))
  {
    RequestedFromInOrder(a, 0);
    SetsNothingAsksNothing(a);
    var r := Requested(a);
    if r != [] {
      assert r[0] in r;
    }
  }

  /** One check on what the expression selected. */
  function Run(lib: JsonLib, expr: string, c: Check, got: Result<Json, Error>): (r: AssertionResult)
    ensures r.name == CheckName(c)
    ensures got.Err? ==> !r.passed
  {
    match c
    case Exists => CheckExists(expr, got)
    case Eq(s) => CheckEq(lib, expr, got, s)
    case Includes(s) => CheckContains(lib, expr, got, s)
    case Matches(p) => CheckMatches(lib, expr, got, p)
    case Above(t) => CheckGt(lib, expr, got, t)
    case Below(t) => CheckLt(lib, expr, got, t)
  }

  /** `jsonPathChecks`: the requested checks, run in their order. */
  function Checks(lib: JsonLib, expr: string, a: JsonPathAssertion, got: Result<Json, Error>): seq<AssertionResult> {
    var req := Requested(a);
    seq(|req|, i requires 0 <= i < |req| => Run(lib, expr, req[i], got))
  }

  /** The results of an expression carry the names of the checks requested, in the same order. */
  lemma ChecksNamed(lib: JsonLib, expr: string, a: JsonPathAssertion, got: Result<Json, Error>)
    ensures var r := Checks(lib, expr, a, got);
      |r| == |Requested(a)| && forall i :: 0 <= i < |r| ==> r[i].name == CheckName(Requested(a)[i])
  {
  }

  /** A failed lookup fails every check of the expression. */
  lemma LookupErrorFailsAll(lib: JsonLib, expr: string, a: JsonPathAssertion, e: Error)
    ensures forall r :: r in Checks(lib, expr, a, Err(e)) ==> !r.passed
  {
  }

  /** What an expression selects: nothing when the body is not JSON, else the library lookup. */
  function Select(lib: JsonLib, doc: Result<Json, Error>, expr: string): (r: Result<Json, Error>)
    ensures doc.Err? ==> r == Err(NotJson)
  {
    if doc.Err? then Err(NotJson) else lib.get(expr, doc.value)
  }

  /** The status and latency results, each present when its bound is set. */
  function Fixed(spec: AssertionsSpec, status: int, latencyMs: int): (r: seq<AssertionResult>)
    ensures |r| == (if spec.status.Some? then 1 else 0) + (if spec.maxLatencyMs.Some? then 1 else 0)
    ensures spec.status.Some? ==> r[0] == Status(spec.status.value, status)
    ensures spec.maxLatencyMs.Some? ==> r[|r| - 1] == MaxLatency(spec.maxLatencyMs.value, latencyMs)
  {
    (if spec.status.Some? then [Status(spec.status.value, status)] else [])
    + (if spec.maxLatencyMs.Some? then [MaxLatency(spec.maxLatencyMs.value, latencyMs)] else [])
  }

  /** The checks of the expressions in `order`, one expression after the other. */
  function PathResults(lib: JsonLib, rules: map<string, JsonPathAssertion>, doc: Result<Json, Error>,
                       order: seq<string>): seq<AssertionResult>
    requires forall i :: 0 <= i < |order| ==> order[i] in rules
  {
    if order == [] then []
    else
      var last := order[|order| - 1];
      PathResults(lib, rules, doc, order[..|order| - 1]) + Checks(lib, last, rules[last], Select(lib, doc, last))
  }

  /** What `Evaluate` returns when it visits the JSONPath expressions in `order`. */
  function Evaluation(lib: JsonLib, spec: AssertionsSpec, status: int, latencyMs: int, body: seq<byte>,
                      order: seq<string>): seq<AssertionResult>
    requires forall i :: 0 <= i < |order| ==> order[i] in spec.jsonPath
  {
    Fixed(spec, status, latencyMs)
    + (if |spec.jsonPath| == 0 then [] else PathResults(lib, spec.jsonPath, lib.parse(body), order))
  }

  lemma PathResultsSnoc(lib: JsonLib, rules: map<string, JsonPathAssertion>, doc: Result<Json, Error>,
                        order: seq<string>, expr: string)
    requires forall i :: 0 <= i < |order| ==> order[i] in rules
    requires expr in rules
    ensures PathResults(lib, rules, doc, order + [expr])
         == PathResults(lib, rules, doc, order) + Checks(lib, expr, rules[expr], Select(lib, doc, expr))
  {
    assert (order + [expr])[..|order|] == order;
  }

  /**
   * The two `range` loops of `Evaluate`: every expression's checks against
   * what it selects from `doc`, in an order the loop chooses.
   */
  method PathChecks(lib: JsonLib, rules: map<string, JsonPathAssertion>, doc: Result<Json, Error>)
    returns (out: seq<AssertionResult>, ghost order: seq<string>)
    ensures IsEnumeration(order, rules.Keys)
    ensures out == PathResults(lib, rules, doc, order)
  {
    out := [];
    order := [];
    var todo := rules.Keys;
    while todo != {}
      invariant todo <= rules.Keys
      invariant forall i :: 0 <= i < |order| ==> order[i] in rules && order[i] !in todo
      invariant forall i, j :: 0 <= i < j < |order| ==> order[i] != order[j]
      invariant |order| + |todo| == |rules.Keys|
      invariant out == PathResults(lib, rules, doc, order)
      decreases todo
    {
      var expr :| expr in todo;
      var got := if doc.Err? then Err(NotJson) else lib.get(expr, doc.value);
      PathResultsSnoc(lib, rules, doc, order, expr);
      out := out + Checks(lib, expr, rules[expr], got);
      order := order + [expr];
      todo := todo - {expr};
    }
  }

  /** `Evaluate`, visiting the JSONPath expressions in an order it chooses. */
  method Evaluate(lib: JsonLib, spec: AssertionsSpec, status: int, latencyMs: int, body: seq<byte>)
    returns (out: seq<AssertionResult>, ghost order: seq<string>)
    ensures IsEnumeration(order, spec.jsonPath.Keys)
    ensures out == Evaluation(lib, spec, status, latencyMs, body, order)
  {
    out := [];
    order := [];
    if spec.status.Some? {
      out := out + [Status(spec.status.value, status)];
    }
    if spec.maxLatencyMs.Some? {
      out := out + [MaxLatency(spec.maxLatencyMs.value, latencyMs)];
    }
    assert out == Fixed(spec, status, latencyMs);
    if |spec.jsonPath| == 0 {
      NoRulesEnumerated(spec.jsonPath);
      return;
    }
    var doc := lib.parse(body);
    var checks;
    checks, order := PathChecks(lib, spec.jsonPath, doc);
    out := out + checks;
  }

  /** With no JSONPath rules the empty order visits every one of them. */
  lemma NoRulesEnumerated(rules: map<string, JsonPathAssertion>)
    requires |rules| == 0
    ensures IsEnumeration([], rules.Keys)
  {
  }

  /** How many checks an assertion asks for. */
  function CheckCount(a: JsonPathAssertion): nat {
    |Requested(a)|
  }

  function TotalChecks(rules: map<string, JsonPathAssertion>, order: seq<string>): nat
    requires forall i :: 0 <= i < |order| ==> order[i] in rules
  {
    if order == [] then 0 else TotalChecks(rules, order[..|order| - 1]) + CheckCount(rules[order[|order| - 1]])
  }

  /** The JSONPath part holds exactly the checks the rules ask for, whatever the order. */
  lemma {:induction false} PathResultsCount(lib: JsonLib, rules: map<string, JsonPathAssertion>,
                                            doc: Result<Json, Error>, order: seq<string>)
    requires forall i :: 0 <= i < |order| ==> order[i] in rules
    ensures |PathResults(lib, rules, doc, order)| == TotalChecks(rules, order)
    decreases |order|
  {
    if order != [] {
      var last := order[|order| - 1];
      PathResultsCount(lib, rules, doc, order[..|order| - 1]);
      ChecksNamed(lib, last, rules[last], Select(lib, doc, last));
    }
  }

  /** A body that is not JSON fails every JSONPath check. */
  lemma {:induction false} NotJsonFailsAll(lib: JsonLib, rules: map<string, JsonPathAssertion>,
                                           doc: Result<Json, Error>, order: seq<string>)
    requires forall i :: 0 <= i < |order| ==> order[i] in rules
    requires doc.Err?
    ensures forall r :: r in PathResults(lib, rules, doc, order) ==> !r.passed
    decreases |order|
  {
    if order != [] {
      var last := order[|order| - 1];
      NotJsonFailsAll(lib, rules, doc, order[..|order| - 1]);
      LookupErrorFailsAll(lib, last, rules[last], NotJson);
    }
  }

  /**
   * The output starts with the status and latency results; with no JSONPath
   * rules that is all of it; with a body that is not JSON every later result
   * fails; and it holds one result per requested JSONPath check.
   */
  lemma EvaluationShape(lib: JsonLib, spec: AssertionsSpec, status: int, latencyMs: int, body: seq<byte>,
                        order: seq<string>)
    requires IsEnumeration(order, spec.jsonPath.Keys)
    ensures var out := Evaluation(lib, spec, status, latencyMs, body, order);
      var n := |Fixed(spec, status, latencyMs)|;
      n <= |out| && out[..n] == Fixed(spec, status, latencyMs)
      && |out| == n + TotalChecks(spec.jsonPath, order)
      && (spec.jsonPath == map[] ==> |out| == n)
      && (lib.parse(body).Err? ==> forall i :: n <= i < |out| ==> !out[i].passed)
  {
    var out := Evaluation(lib, spec, status, latencyMs, body, order);
    var n := |Fixed(spec, status, latencyMs)|;
    if |spec.jsonPath| == 0 {
      assert order == [];
    } else {
      var doc := lib.parse(body);
      PathResultsCount(lib, spec.jsonPath, doc, order);
      if doc.Err? {
        NotJsonFailsAll(lib, spec.jsonPath, doc, order);
        forall i | n <= i < |out|
          ensures !out[i].passed
        {
          assert out[i] == PathResults(lib, spec.jsonPath, doc, order)[i - n];
        }
      }
    }
    assert out[..n] == Fixed(spec, status, latencyMs);
  }
}
