/**
 * The extraction engine: each rule names a variable and a JSONPath
 * expression; the value the expression selects from the response body, as
 * text, becomes the variable's value. Rules run in the sorted order of their
 * variable names, a failed rule is reported and the others still run, and a
 * body that is not JSON fails every rule.
 */
module Extraction {
  import opened Common
  import opened Text
  import opened Errors
  import opened Json
  import opened Domain
  import opened Ordering

  /** Singleton lists stripped off, outermost first. */
  function Unwrap(v: Json): (r: Json)
    ensures !(r.Arr? && |r.items| == 1)
  {
    if v.Arr? && |v.items| == 1 then Unwrap(v.items[0]) else v
  }

  /**
   * `toString`: a one-element list stands for its element; the empty list is
   * an error; longer lists and objects are marshalled; strings are as they
   * are and numbers and booleans as `fmt.Sprint` prints them.
   */
  function ToString(lib: JsonLib, v: Json): (r: Result<string, Error>)
    ensures r.Err? ==> Unwrap(v) == Arr([]) || lib.marshal(Unwrap(v)).Err?
    ensures Unwrap(v).Str? ==> r == Ok(Unwrap(v).s)
    ensures Unwrap(v) == Arr([]) ==> r.Err?
    ensures Unwrap(v).Bool? ==> r == Ok(if Unwrap(v).b then "true" else "false")
    ensures Unwrap(v).Num? ==> r == Ok(lib.sprintFloat(Unwrap(v).n))
    ensures Unwrap(v) == Null ==> r == Ok("<nil>")
    ensures Unwrap(v).Obj? || (Unwrap(v).Arr? && |Unwrap(v).items| >= 2) ==> r == lib.marshal(Unwrap(v))
  {
    match v
    case Arr(items) =>
      if |items| == 0 then Err(Leaf("empty array"))
      else if |items| == 1 then ToString(lib, items[0])
      else lib.marshal(v)
    case Str(s) => Ok(s)
    case Num(n) => Ok(lib.sprintFloat(n))
    case Bool(b) => Ok(if b then "true" else "false")
    case Obj(_) => lib.marshal(v)
    case Null => Ok("<nil>")
  }

  /** Any number of singleton lists around a value leave its text unchanged. */
  lemma {:induction false} ToStringUnwraps(lib: JsonLib, v: Json)
    ensures ToString(lib, v) == ToString(lib, Unwrap(v))
  {
    if v.Arr? && |v.items| == 1 {
      ToStringUnwraps(lib, v.items[0]);
    }
  }

  /** `n` singleton lists around `v`. */
  function Nest(v: Json, n: nat): Json {
    if n == 0 then v else Arr([Nest(v, n - 1)])
  }

  lemma {:induction false} ToStringNested(lib: JsonLib, v: Json, n: nat)
    ensures ToString(lib, Nest(v, n)) == ToString(lib, v)
  {
    if n > 0 {
      ToStringNested(lib, v, n - 1);
    }
  }

  /** The message prefix naming the variable and the trimmed expression. */
  function Subject(name: string, expr: string): string {
    "extract " + Quote(name) + " (" + expr + "): "
  }

  /**
   * The value one rule of `Apply` gives its variable: the text of what the
   * trimmed expression finds in a JSON document, when it finds a non-empty
   * value that converts to text.
   */
  function Value(lib: JsonLib, doc: Result<Json, Error>, rule: string): (v: Option<string>)
    ensures v.Some? <==>
      doc.Ok? && TrimSpace(rule) != "" && lib.get(TrimSpace(rule), doc.value).Ok?
      && !IsEmptyValue(lib.get(TrimSpace(rule), doc.value).value)
      && ToString(lib, lib.get(TrimSpace(rule), doc.value).value).Ok?
    ensures v.Some? ==> v.value == ToString(lib, lib.get(TrimSpace(rule), doc.value).value).value
  {
    var expr := TrimSpace(rule);
    if doc.Err? || expr == "" then None
    else
      match lib.get(expr, doc.value)
      case Err(_) => None
      case Ok(val) =>
        if IsEmptyValue(val) then None
        else
          match ToString(lib, val)
          case Err(_) => None
          case Ok(s) => Some(s)
  }

  /**
   * One rule of `Apply`: its report, which succeeds exactly when the variable
   * gets a value, and that value.
   */
  function Outcome(lib: JsonLib, doc: Result<Json, Error>, name: string, rule: string)
    : (r: (ExtractResult, Option<string>))
    ensures r.0.name == name
    ensures r.0.success <==> r.1.Some?
    ensures r.1 == Value(lib, doc, rule)
  {
    var expr := TrimSpace(rule);
    if doc.Err? then
      (ExtractResult(name, false, Subject(name, expr) + "response body is not valid JSON"), None)
    else if expr == "" then
      (ExtractResult(name, false, "extract " + Quote(name) + ": empty jsonpath expression"), None)
    else
      match lib.get(expr, doc.value)
      case Err(e) => (ExtractResult(name, false, Subject(name, expr) + "jsonpath error: " + Message(e)), None)
      case Ok(val) =>
        if IsEmptyValue(val) then (ExtractResult(name, false, Subject(name, expr) + "no value found"), None)
        else
          match ToString(lib, val)
          case Err(e) =>
            (ExtractResult(name, false, Subject(name, expr) + "cannot convert value to string: " + Message(e)), None)
          case Ok(s) => (ExtractResult(name, true, "extracted " + Quote(name)), Some(s))
  }

  /** The reports of the rules named in `keys`, in that order. */
  function Results(lib: JsonLib, doc: Result<Json, Error>, rules: ExtractSpec, keys: seq<string>)
    : seq<ExtractResult>
    requires forall i :: 0 <= i < |keys| ==> keys[i] in rules
  {
    seq(|keys|, i requires 0 <= i < |keys| => Outcome(lib, doc, keys[i], rules[keys[i]]).0)
  }

  /** The variables the rules named in `keys` set, one rule after the other. */
  function Extracted(lib: JsonLib, doc: Result<Json, Error>, rules: ExtractSpec, keys: seq<string>)
    : StringMap
    requires forall i :: 0 <= i < |keys| ==> keys[i] in rules
  {
    if keys == [] then map[]
    else
      var name := keys[|keys| - 1];
      var vars := Extracted(lib, doc, rules, keys[..|keys| - 1]);
      match Value(lib, doc, rules[name])
      case Some(s) => vars[name := s]
      case None => vars
  }

  /**
   * A variable is extracted exactly when one of the rules in `keys` names it and
   * succeeds, and it holds the text that rule produced.
   */
  lemma {:induction false} ExtractedMeans(lib: JsonLib, doc: Result<Json, Error>, rules: ExtractSpec,
                                          keys: seq<string>)
    requires forall i :: 0 <= i < |keys| ==> keys[i] in rules
    ensures forall k :: k in Extracted(lib, doc, rules, keys) <==>
                        k in keys && Value(lib, doc, rules[k]).Some?
    ensures forall k :: k in Extracted(lib, doc, rules, keys) ==>
                        Extracted(lib, doc, rules, keys)[k] == Value(lib, doc, rules[k]).value
  {
    forall k {
      ExtractedAt(lib, doc, rules, keys, k);
    }
  }

  /** `ExtractedMeans` for one name. */
  lemma {:induction false} ExtractedAt(lib: JsonLib, doc: Result<Json, Error>, rules: ExtractSpec,
                                       keys: seq<string>, k: string)
    requires forall i :: 0 <= i < |keys| ==> keys[i] in rules
    ensures k in Extracted(lib, doc, rules, keys) <==> k in keys && Value(lib, doc, rules[k]).Some?
    ensures k in Extracted(lib, doc, rules, keys) ==>
              Extracted(lib, doc, rules, keys)[k] == Value(lib, doc, rules[k]).value
    decreases |keys|
  {
    if keys != [] {
      var init, name := keys[..|keys| - 1], keys[|keys| - 1];
      ExtractedAt(lib, doc, rules, init, k);
      assert k in keys <==> k in init || k == name by {
        assert keys == init + [name];
      }
    }
  }

  /** `Apply`'s collection of the variable names and `sort.Strings`, as one insertion loop. */
  method SortedKeys(rules: ExtractSpec) returns (keys: seq<string>)
    ensures StrictlySorted(keys)
    ensures forall k :: k in keys <==> k in rules
    ensures |keys| == |rules|
  {
    keys := [];
    var todo := rules.Keys;
    while todo != {}
      invariant todo <= rules.Keys
      invariant StrictlySorted(keys)
      invariant forall k :: k in keys <==> k in rules && k !in todo
      invariant |keys| + |todo| == |rules|
      decreases todo
    {
      var k :| k in todo;
      keys := Insert(k, keys);
      todo := todo - {k};
    }
  }

  lemma ResultsSnoc(lib: JsonLib, doc: Result<Json, Error>, rules: ExtractSpec, keys: seq<string>, i: nat)
    requires forall j :: 0 <= j < |keys| ==> keys[j] in rules
    requires i < |keys|
    ensures Results(lib, doc, rules, keys[..i + 1])
         == Results(lib, doc, rules, keys[..i]) + [Outcome(lib, doc, keys[i], rules[keys[i]]).0]
  {
  }

  lemma ExtractedSnoc(lib: JsonLib, doc: Result<Json, Error>, rules: ExtractSpec, keys: seq<string>, i: nat)
    requires forall j :: 0 <= j < |keys| ==> keys[j] in rules
    requires i < |keys|
    ensures Extracted(lib, doc, rules, keys[..i + 1])
         == match Value(lib, doc, rules[keys[i]])
            case Some(s) => Extracted(lib, doc, rules, keys[..i])[keys[i] := s]
            case None => Extracted(lib, doc, rules, keys[..i])
  {
    assert keys[..i + 1][..i] == keys[..i];
  }

  /** The body of `Apply`'s loop over a JSON document: one rule. */
  method ApplyRule(lib: JsonLib, doc: Json, name: string, rule: string)
    returns (report: ExtractResult, value: Option<string>)
    ensures (report, value) == Outcome(lib, Ok(doc), name, rule)
  {
    var expr := TrimSpace(rule);
    if expr == "" {
      return ExtractResult(name, false, "extract " + Quote(name) + ": empty jsonpath expression"), None;
    }
    var got := lib.get(expr, doc);
    if got.Err? {
      return ExtractResult(name, false, Subject(name, expr) + "jsonpath error: " + Message(got.error)), None;
    }
    if IsEmptyValue(got.value) {
      return ExtractResult(name, false, Subject(name, expr) + "no value found"), None;
    }
    var text := ToString(lib, got.value);
    if text.Err? {
      return ExtractResult(name, false,
        Subject(name, expr) + "cannot convert value to string: " + Message(text.error)), None;
    }
    return ExtractResult(name, true, "extracted " + Quote(name)), Some(text.value);
  }

  /** `Apply`'s loop for a body that is not JSON: every rule fails and nothing is set. */
  method RejectAll(lib: JsonLib, doc: Result<Json, Error>, rules: ExtractSpec, keys: seq<string>)
    returns (results: seq<ExtractResult>)
    requires doc.Err?
    requires forall j :: 0 <= j < |keys| ==> keys[j] in rules
    ensures results == Results(lib, doc, rules, keys)
  {
    results := [];
    var i := 0;
    while i < |keys|
      invariant 0 <= i <= |keys|
      invariant results == Results(lib, doc, rules, keys[..i])
    {
      var name := keys[i];
      var expr := TrimSpace(rules[name]);
      ResultsSnoc(lib, doc, rules, keys, i);
      results := results + [ExtractResult(name, false, Subject(name, expr) + "response body is not valid JSON")];
      i := i + 1;
    }
    assert keys[..i] == keys;
  }

  /** `Apply`'s loop over a JSON document: each rule in turn. */
  method RunRules(lib: JsonLib, doc: Json, rules: ExtractSpec, keys: seq<string>)
    returns (vars: StringMap, results: seq<ExtractResult>)
    requires forall j :: 0 <= j < |keys| ==> keys[j] in rules
    ensures results == Results(lib, Ok(doc), rules, keys)
    ensures vars == Extracted(lib, Ok(doc), rules, keys)
  {
    vars := map[];
    results := [];
    var i := 0;
    while i < |keys|
      invariant 0 <= i <= |keys|
      invariant results == Results(lib, Ok(doc), rules, keys[..i])
      invariant vars == Extracted(lib, Ok(doc), rules, keys[..i])
    {
      var name := keys[i];
      var report, value := ApplyRule(lib, doc, name, rules[name]);
      ResultsSnoc(lib, Ok(doc), rules, keys, i);
      ExtractedSnoc(lib, Ok(doc), rules, keys, i);
      if value.Some? {
        vars := vars[name := value.value];
      }
      results := results + [report];
      i := i + 1;
    }
    assert keys[..i] == keys;
  }

  /**
   * `Apply`. The rules run in the sorted order of their names (`order`, which
   * `SortedUnique` shows is the only strictly sorted listing of those names).
   */
  method Apply(lib: JsonLib, body: seq<byte>, rules: ExtractSpec)
    returns (vars: StringMap, results: seq<ExtractResult>, ghost order: seq<string>)
    ensures StrictlySorted(order) && (forall k :: k in order <==> k in rules) && |order| == |rules|
    ensures results == Results(lib, lib.parse(body), rules, order)
    ensures vars == Extracted(lib, lib.parse(body), rules, order)
  {
    if |rules| == 0 {
      return map[], [], [];
    }
    var keys := SortedKeys(rules);
    order := keys;
    var doc := lib.parse(body);
    if doc.Err? {
      results := RejectAll(lib, doc, rules, keys);
      NothingFromNotJson(lib, doc, rules, keys);
      return map[], results, order;
    }
    vars, results := RunRules(lib, doc.value, rules, keys);
  }

  lemma {:induction false} NothingFromNotJson(lib: JsonLib, doc: Result<Json, Error>, rules: ExtractSpec,
                                              keys: seq<string>)
    requires doc.Err?
    requires forall j :: 0 <= j < |keys| ==> keys[j] in rules
    ensures Extracted(lib, doc, rules, keys) == map[]
    decreases |keys|
  {
    if keys != [] {
      NothingFromNotJson(lib, doc, rules, keys[..|keys| - 1]);
    }
  }

  /**
   * What `Apply` returns, whatever the order it used: one report per rule, whose
   * names are sorted; a variable is set exactly when its rule succeeded, to the
   * text that rule produced; a body that is not JSON sets nothing and fails
   * every rule; no rules give nothing.
   */
  lemma ApplyMeans(lib: JsonLib, body: seq<byte>, rules: ExtractSpec, order: seq<string>)
    requires StrictlySorted(order) && (forall k :: k in order <==> k in rules)
    ensures var doc := lib.parse(body);
      var results := Results(lib, doc, rules, order);
      var vars := Extracted(lib, doc, rules, order);
      |results| == |order|
      && (forall i, j :: 0 <= i < j < |results| ==> Before(results[i].name, results[j].name))
      && (forall i :: 0 <= i < |results| ==>
            results[i].name == order[i] && (results[i].success <==> order[i] in vars))
      && vars.Keys <= rules.Keys
      && (forall k :: k in vars ==> Some(vars[k]) == Value(lib, doc, rules[k]))
      && (doc.Err? ==> vars == map[] && forall i :: 0 <= i < |results| ==> !results[i].success)
      && (rules == map[] ==> results == [] && vars == map[])
  {
    var doc := lib.parse(body);
    ReportsNamed(lib, doc, rules, order);
    ReportsSucceed(lib, doc, rules, order);
    ExtractedMeans(lib, doc, rules, order);
    var vars := Extracted(lib, doc, rules, order);
    if doc.Err? {
      assert forall k :: k !in vars;
    }
    assert order == [] || order[0] in order;
  }

  /** The reports carry the names of `order`, so they are sorted when it is. */
  lemma ReportsNamed(lib: JsonLib, doc: Result<Json, Error>, rules: ExtractSpec, order: seq<string>)
    requires StrictlySorted(order) && (forall k :: k in order <==> k in rules)
    ensures |Results(lib, doc, rules, order)| == |order|
    ensures forall i :: 0 <= i < |order| ==> Results(lib, doc, rules, order)[i].name == order[i]
    ensures forall i, j :: 0 <= i < j < |order| ==>
              Before(Results(lib, doc, rules, order)[i].name, Results(lib, doc, rules, order)[j].name)
  {
    var results := Results(lib, doc, rules, order);
    assert forall i :: 0 <= i < |order| ==> results[i].name == order[i];
  }

  /** A report succeeds exactly when its variable is set. */
  lemma ReportsSucceed(lib: JsonLib, doc: Result<Json, Error>, rules: ExtractSpec, order: seq<string>)
    requires forall k :: k in order <==> k in rules
    ensures forall i :: 0 <= i < |order| ==>
              (Results(lib, doc, rules, order)[i].success <==> order[i] in Extracted(lib, doc, rules, order))
  {
    ExtractedMeans(lib, doc, rules, order);
    var results := Results(lib, doc, rules, order);
    assert forall i :: 0 <= i < |order| ==> (results[i].success <==> Value(lib, doc, rules[order[i]]).Some?);
  }
}
