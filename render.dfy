/**
 * The template package's `RenderString`: `{{key}}` placeholders replaced by
 * the values of a plain variable map, with no built-ins. The renderer jumps
 * from one "{{" to the next; the resolver scans character by character. The
 * two agree on every input, except for the text of their errors.
 */
module Render {
  import opened Common
  import opened Text
  import opened Errors
  import opened Resolver

  const UnclosedExpression: Error := DomainError(InvalidConfig, "unclosed template expression", None)

  const EmptyExpression: Error := DomainError(InvalidConfig, "empty template expression", None)

  function MissingKey(key: string): Error {
    DomainError(MissingVar, "missing variable " + Quote(key), None)
  }

  /** The errors rendering can end with. */
  ghost predicate IsRenderError(vars: StringMap, e: Error) {
    e == UnclosedExpression || e == EmptyExpression
    || exists key :: e == MissingKey(key) && key != "" && key !in vars
  }

  /**
   * The expression whose "{{" ends just before `after`: the key up to the
   * first "}}", trimmed, is looked up; the result is its value and the text
   * after the closing braces.
   */
  function Expression(vars: StringMap, after: string): (r: Result<(string, string), Error>)
    ensures r.Ok? ==> |r.value.1| + 2 <= |after|
    ensures r.Err? ==> r.error.DomainError? && r.error.cause.None?
  {
    var end := IndexOf(after, "}}");
    if end < 0 then Err(UnclosedExpression)
    else
      var key := TrimSpace(after[..end]);
      if key == "" then Err(EmptyExpression)
      else if key !in vars then Err(MissingKey(key))
      else Ok((vars[key], after[end + 2..]))
  }

  /**
   * What `RenderString` computes for the text still to be rendered: the text
   * before the next "{{" is copied, the expression after it is replaced by
   * its value, and rendering resumes after that expression's "}}".
   */
  function Rendered(vars: StringMap, rest: string): (r: Result<string, Error>)
    ensures r.Err? ==> r.error.DomainError? && r.error.cause.None?
    decreases |rest|
  {
    var start := IndexOf(rest, "{{");
    if start < 0 then Ok(rest)
    else
      match Expression(vars, rest[start + 2..])
      case Err(e) => Err(e)
      case Ok((v, tail)) => Prepend(rest[..start] + v, Rendered(vars, tail))
  }

  /** An expression fails only with one of the three errors. */
  lemma ExpressionErrors(vars: StringMap, after: string)
    requires Expression(vars, after).Err?
    ensures IsRenderError(vars, Expression(vars, after).error)
  {
    var end := IndexOf(after, "}}");
    if end >= 0 {
      var key := TrimSpace(after[..end]);
      if key != "" && key !in vars {
        assert IsRenderError(vars, MissingKey(key));
      }
    }
  }

  /** Rendering fails only with one of the three errors. */
  lemma {:induction false} RenderedErrors(vars: StringMap, rest: string)
    requires Rendered(vars, rest).Err?
    ensures IsRenderError(vars, Rendered(vars, rest).error)
    decreases |rest|
  {
    var start := IndexOf(rest, "{{");
    var x := Expression(vars, rest[start + 2..]);
    if x.Err? {
      ExpressionErrors(vars, rest[start + 2..]);
    } else {
      RenderedErrors(vars, x.value.1);
    }
  }

  /** `RenderString`. */
  method RenderString(input: string, vars: StringMap) returns (r: Result<string, Error>)
    ensures r == Rendered(vars, input)
  {
    if input == "" {
      return Ok("");
    }
    var out := "";
    var rest := input;
    PrependEmpty(Rendered(vars, input));
    var start := IndexOf(rest, "{{");
    while start != -1
      invariant start == IndexOf(rest, "{{")
      invariant Rendered(vars, input) == Prepend(out, Rendered(vars, rest))
      decreases |rest|
    {
      var before := rest[..start];
      var after := rest[start + 2..];
      var end := IndexOf(after, "}}");
      if end == -1 {
        return Err(UnclosedExpression);
      }
      var key := TrimSpace(after[..end]);
      if key == "" {
        return Err(EmptyExpression);
      }
      if key !in vars {
        return Err(MissingKey(key));
      }
      assert Expression(vars, after) == Ok((vars[key], after[end + 2..]));
      RenderedAt(vars, rest, start);
      PrependPrepend(out, before + vars[key], Rendered(vars, after[end + 2..]));
      out := out + (before + vars[key]);
      rest := after[end + 2..];
      start := IndexOf(rest, "{{");
    }
    r := Ok(out + rest);
  }

  /** `Rendered` at a "{{" found at `start`. */
  lemma RenderedAt(vars: StringMap, rest: string, start: nat)
    requires start == IndexOf(rest, "{{")
    ensures var x := Expression(vars, rest[start + 2..]);
      Rendered(vars, rest)
      == if x.Err? then Err(x.error) else Prepend(rest[..start] + x.value.0, Rendered(vars, x.value.1))
  {
  }

  /** An empty template renders to the empty string. */
  lemma RenderEmpty(vars: StringMap)
    ensures Rendered(vars, "") == Ok("")
  {
    assert !OccursAt("", "{{", 0);
  }

  /** A template without "{{" renders to itself, whatever else it contains. */
  lemma RenderVerbatim(vars: StringMap, s: string)
    requires !Contains(s, "{{")
    ensures Rendered(vars, s) == Ok(s)
  {
  }

  /** Where "{{" occurs in `s[i..]`, it occurs in `s`, shifted by `i`. */
  lemma OccursShift(s: string, sub: string, i: nat, p: nat)
    requires i <= |s|
    ensures OccursAt(s[i..], sub, p) <==> OccursAt(s, sub, i + p)
  {
    if i + p + |sub| <= |s| {
      assert s[i..][p..p + |sub|] == s[i + p..i + p + |sub|];
    }
  }

  /** A stretch without "{{" is copied by the scan, one character at a time. */
  lemma {:induction false} ScanCopies(vars: StringMap, builtins: StringMap, s: string, i: nat, k: nat)
    requires i <= k <= |s|
    requires forall p :: i <= p < k ==> !OccursAt(s, "{{", p)
    ensures Scan(vars, builtins, s, i) == Prepend(s[i..k], Scan(vars, builtins, s, k))
    decreases k - i
  {
    if i == k {
      PrependEmpty(Scan(vars, builtins, s, k));
    } else {
      assert !OccursAt(s, "{{", i);
      if i + 1 < |s| {
        assert s[i..i + 2] == [s[i], s[i + 1]];
      }
      assert Scan(vars, builtins, s, i) == Prepend([s[i]], Scan(vars, builtins, s, i + 1));
      ScanCopies(vars, builtins, s, i + 1, k);
      PrependPrepend([s[i]], s[i + 1..k], Scan(vars, builtins, s, k));
      assert [s[i]] + s[i + 1..k] == s[i..k];
    }
  }

  /** The kind an error states itself, when it is a structured error. */
  function OwnKind(e: Error): Option<Kind> {
    if e.OpError? || e.DomainError? then Some(e.kind) else None
  }

  /** An `OpError`, or a domain `Error` without a cause, has the kind it states. */
  lemma OwnKindIsKindOf(e: Error)
    requires e.OpError? || (e.DomainError? && e.cause.None?)
    ensures KindOf(e) == OwnKind(e)
  {
    assert Chain(e)[0] == e;
  }

  /** Two outcomes agree: both succeed with the same text, or both fail with errors of the same kind. */
  predicate Agree(a: Result<string, Error>, b: Result<string, Error>) {
    (a.Ok? <==> b.Ok?)
    && (a.Ok? ==> a == b)
    && (a.Err? ==> OwnKind(a.error) == OwnKind(b.error))
  }

  /**
   * An expression read by the renderer and a placeholder read by the
   * resolver, from the same position of `s`, agree: both succeed with the same
   * value and resume at the same place, or both fail with errors of the same kind.
   */
  predicate ReadsAgree(s: string, x: Result<(string, string), Error>, y: Result<(string, nat), Error>) {
    (x.Ok? <==> y.Ok?)
    && (x.Ok? ==> x.value.0 == y.value.0 && y.value.1 <= |s| && x.value.1 == s[y.value.1..])
    && (x.Err? ==> OwnKind(x.error) == OwnKind(y.error))
  }

  lemma LookupWithoutBuiltins(vars: StringMap, name: string)
    ensures Lookup(vars, map[], name) == if name in vars then Some(vars[name]) else None
  {
  }

  lemma {:induction false} ExpressionMatchesPlaceholder(vars: StringMap, s: string, p: nat)
    requires p <= |s|
    ensures ReadsAgree(s, Expression(vars, s[p..]), Placeholder(vars, map[], s, p))
  {
    var after := s[p..];
    var end := IndexOf(after, "}}");
    if end >= 0 {
      PlaceholderClosed(vars, map[], s, p, end);
      assert after[..end] == s[p..p + end];
      assert after[end + 2..] == s[p + end + 2..];
      LookupWithoutBuiltins(vars, TrimSpace(s[p..p + end]));
    }
  }

  /** The scan at a "{{": the placeholder is read, and the scan goes on after it. */
  lemma ScanOpen(vars: StringMap, builtins: StringMap, s: string, i: nat)
    requires OccursAt(s, "{{", i)
    ensures Scan(vars, builtins, s, i)
         == match Placeholder(vars, builtins, s, i + 2)
            case Err(e) => Err(e)
            case Ok((v, next)) => Prepend(v, Scan(vars, builtins, s, next))
  {
    assert s[i..i + 2] == "{{";
    assert s[i] == '{' && s[i + 1] == '{';
  }

  /** `Rendered` of the suffix from `i`, whose first "{{" is at `i + start`. */
  lemma RenderedOpen(vars: StringMap, s: string, i: nat, start: nat)
    requires i <= |s| && start == IndexOf(s[i..], "{{") && i + start + 2 <= |s|
    ensures var x := Expression(vars, s[i + start + 2..]);
      Rendered(vars, s[i..])
      == if x.Err? then Err(x.error) else Prepend(s[i..i + start] + x.value.0, Rendered(vars, x.value.1))
  {
    assert s[i..][start + 2..] == s[i + start + 2..];
    assert s[i..][..start] == s[i..i + start];
  }

  /**
   * The step shared by both sides: the same text before the "{{", then reads
   * that agree, then outcomes that agree after the "}}".
   */
  lemma AgreeAfterRead(s: string, before: string, x: Result<(string, string), Error>, y: Result<(string, nat), Error>,
                       r: Result<string, Error>, sc: Result<string, Error>,
                       rNext: Result<string, Error>, sNext: Result<string, Error>)
    requires ReadsAgree(s, x, y)
    requires r == if x.Err? then Err(x.error) else Prepend(before + x.value.0, rNext)
    requires sc == Prepend(before, if y.Err? then Err(y.error) else Prepend(y.value.0, sNext))
    requires x.Ok? ==> Agree(rNext, sNext)
    ensures Agree(r, sc)
  {
    if x.Ok? {
      PrependPrepend(before, x.value.0, sNext);
      assert Agree(Prepend(before + x.value.0, rNext), Prepend(before + x.value.0, sNext));
    }
  }

  /** Without a further "{{", both sides copy the rest of `s`. */
  lemma NoOpenAgrees(vars: StringMap, s: string, i: nat)
    requires i <= |s| && IndexOf(s[i..], "{{") < 0
    ensures Agree(Rendered(vars, s[i..]), Scan(vars, map[], s, i))
  {
    forall p | i <= p < |s|
      ensures !OccursAt(s, "{{", p)
    {
      OccursShift(s, "{{", i, p - i);
    }
    ScanCopies(vars, map[], s, i, |s|);
    assert Scan(vars, map[], s, |s|) == Ok("");
    assert s[i..|s|] == s[i..] && s[i..] + "" == s[i..];
  }

  /** The scan from `i`, when the first "{{" after `i` is at `i + start`. */
  lemma ScanToOpen(vars: StringMap, s: string, i: nat, start: nat)
    requires i <= |s| && start == IndexOf(s[i..], "{{") >= 0
    ensures i + start + 2 <= |s|
    ensures var y := Placeholder(vars, map[], s, i + start + 2);
      Scan(vars, map[], s, i)
      == Prepend(s[i..i + start], if y.Err? then Err(y.error) else Prepend(y.value.0, Scan(vars, map[], s, y.value.1)))
  {
    var at := i + start;
    forall p | i <= p < at
      ensures !OccursAt(s, "{{", p)
    {
      OccursShift(s, "{{", i, p - i);
    }
    OccursShift(s, "{{", i, start);
    ScanCopies(vars, map[], s, i, at);
    ScanOpen(vars, map[], s, at);
  }

  /**
   * With the first "{{" after `i` at `i + start`: both sides agree if they
   * agree after the placeholder's "}}".
   */
  lemma OpenAgrees(vars: StringMap, s: string, i: nat, start: nat)
    requires i <= |s| && start == IndexOf(s[i..], "{{") >= 0
    requires var y := Placeholder(vars, map[], s, i + start + 2);
      y.Ok? ==> Agree(Rendered(vars, s[y.value.1..]), Scan(vars, map[], s, y.value.1))
    ensures Agree(Rendered(vars, s[i..]), Scan(vars, map[], s, i))
  {
    ScanToOpen(vars, s, i, start);
    var at := i + start;
    RenderedOpen(vars, s, i, start);
    ExpressionMatchesPlaceholder(vars, s, at + 2);
    var x := Expression(vars, s[at + 2..]);
    var y := Placeholder(vars, map[], s, at + 2);
    if x.Ok? {
      AgreeAfterRead(s, s[i..at], x, y, Rendered(vars, s[i..]), Scan(vars, map[], s, i),
        Rendered(vars, s[y.value.1..]), Scan(vars, map[], s, y.value.1));
    } else {
      AgreeAfterRead(s, s[i..at], x, y, Rendered(vars, s[i..]), Scan(vars, map[], s, i), Ok(""), Ok(""));
    }
  }

  /**
   * Rendering the suffix of `s` from `i` and scanning `s` from `i` without
   * built-ins agree.
   */
  lemma {:induction false} RenderedMatchesScan(vars: StringMap, s: string, i: nat)
    requires i <= |s|
    ensures Agree(Rendered(vars, s[i..]), Scan(vars, map[], s, i))
    decreases |s| - i
  {
    var start := IndexOf(s[i..], "{{");
    if start < 0 {
      NoOpenAgrees(vars, s, i);
    } else {
      OccursShift(s, "{{", i, start);
      var y := Placeholder(vars, map[], s, i + start + 2);
      if y.Ok? {
        RenderedMatchesScan(vars, s, y.value.1);
      }
      OpenAgrees(vars, s, i, start);
    }
  }

  /**
   * `RenderString` and `resolveStringWith` with no built-ins agree: the same
   * text on success, and an error of the same kind on failure.
   */
  lemma RenderAgreesWithResolve(vars: StringMap, s: string)
    ensures Rendered(vars, s).Ok? <==> Resolve(vars, map[], s).Ok?
    ensures Rendered(vars, s).Ok? ==> Rendered(vars, s) == Resolve(vars, map[], s)
    ensures Rendered(vars, s).Err? ==>
      KindOf(Rendered(vars, s).error) == KindOf(Resolve(vars, map[], s).error)
  {
    assert s[0..] == s;
    RenderedMatchesScan(vars, s, 0);
    ResolveIsScan(vars, map[], s);
    var a := Rendered(vars, s);
    var b := Resolve(vars, map[], s);
    if a.Err? {
      assert IsScanError(vars, map[], b.error);
      OwnKindIsKindOf(a.error);
      OwnKindIsKindOf(b.error);
    }
  }

  /** Malformed templates are configuration errors; undefined keys are missing variables. */
  lemma RenderErrorKind(vars: StringMap, s: string)
    requires Rendered(vars, s).Err?
    ensures KindOf(Rendered(vars, s).error) == Some(InvalidConfig)
         || KindOf(Rendered(vars, s).error) == Some(MissingVar)
  {
    RenderedErrors(vars, s);
    OwnKindIsKindOf(Rendered(vars, s).error);
  }
}
