/**
 * The error values of the domain package: the coarse error kinds, the two
 * structured error records (`Error` with a message and optional cause, and
 * `OpError` with an operation, optional path and optional wrapped error), and
 * the plain errors the core wraps around them (`errors.New`, `fmt.Errorf` with
 * `%w`, and library errors, whose text is all the core looks at).
 */
module Errors {
  import opened Common
  import opened Text

  datatype Kind = NotFound | InvalidConfig | InvalidRequest | MissingVar | Execution

  /** The string value of an `ErrorKind` constant. */
  function KindName(k: Kind): (r: string)
    ensures r != []
  {
    match k
    case NotFound => "not_found"
    case InvalidConfig => "invalid_config"
    case InvalidRequest => "invalid_request"
    case MissingVar => "missing_variable"
    case Execution => "execution"
  }

  lemma KindNameInjective(a: Kind, b: Kind)
    requires KindName(a) == KindName(b)
    ensures a == b
  {
  }

  datatype Error =
    | OpError(op: string, kind: Kind, path: string, err: Option<Error>)
    | DomainError(kind: Kind, msg: string, cause: Option<Error>)
      /** `fmt.Errorf("<prefix>%w", inner)`: the prefix text followed by the inner error's text. */
    | Wrapped(prefix: string, inner: Error)
      /** `errors.New(text)`, `fmt.Errorf` without `%w`, and errors from libraries. */
    | Leaf(text: string)

  const ErrNotFound: Error := Leaf("not found")
  const ErrInvalidConfig: Error := Leaf("invalid config")
  const ErrInvalidRequest: Error := Leaf("invalid request")
  const ErrMissingVar: Error := Leaf("missing variable")
  const ErrExecution: Error := Leaf("execution error")

  /** The `Error()` text of an error (`%v` formatting). */
  function Message(e: Error): string {
    match e
    case OpError(op, kind, path, err) =>
      op + ": " + KindName(kind)
      + (if path != "" then " (path=" + path + ")" else "")
      + (if err.Some? then ": " + Message(err.value) else "")
    case DomainError(kind, msg, cause) =>
      KindName(kind) + ": " + msg + (if cause.Some? then ": " + Message(cause.value) else "")
    case Wrapped(prefix, inner) => prefix + Message(inner)
    case Leaf(text) => text
  }

  /**
   * `(*Error).Error` and `(*OpError).Error` called through a possibly nil
   * pointer: a nil receiver prints `<nil>`.
   */
  function ReceiverMessage(p: Option<Error>): (r: string)
    requires p.Some? ==> p.value.OpError? || p.value.DomainError?
    ensures p.None? ==> r == "<nil>"
    ensures p.Some? ==> r == Message(p.value)
  {
    if p.None? then "<nil>" else Message(p.value)
  }

  /** `Unwrap`: the wrapped error (`Err` or `Cause`), if any. */
  function Unwrap(e: Error): Option<Error> {
    match e
    case OpError(_, _, _, err) => err
    case DomainError(_, _, cause) => cause
    case Wrapped(_, inner) => Some(inner)
    case Leaf(_) => None
  }

  /** `(*OpError)(nil).Unwrap()` and `(*Error)(nil).Unwrap()` are nil too. */
  function ReceiverUnwrap(p: Option<Error>): (r: Option<Error>)
    ensures p.None? ==> r.None?
    ensures p.Some? ==> r == Unwrap(p.value)
  {
    if p.None? then None else Unwrap(p.value)
  }

  /** The error followed by everything reachable through `Unwrap`, as `errors.As` visits it. */
  function Chain(e: Error): (r: seq<Error>)
    ensures r != [] && r[0] == e
  {
    match Unwrap(e)
    case None => [e]
    case Some(c) => [e] + Chain(c)
  }

  /** The message of every error ends with the message of the error it wraps. */
  lemma UnwrapSuffix(e: Error)
    requires Unwrap(e).Some?
    ensures HasSuffix(Message(e), Message(Unwrap(e).value))
  {
    var m := Message(Unwrap(e).value);
    match e
    case OpError(op, kind, path, err) =>
      var head := op + ": " + KindName(kind) + (if path != "" then " (path=" + path + ")" else "");
      assert Message(e) == (head + ": ") + m;
      SuffixOfAppend(head + ": ", m);
    case DomainError(kind, msg, cause) =>
      var head := KindName(kind) + ": " + msg;
      assert Message(e) == (head + ": ") + m;
      SuffixOfAppend(head + ": ", m);
    case Wrapped(prefix, inner) =>
      SuffixOfAppend(prefix, m);
  }

  lemma {:induction false} ChainSuffix(e: Error, i: nat)
    requires i < |Chain(e)|
    ensures HasSuffix(Message(e), Message(Chain(e)[i]))
  {
    if i > 0 {
      var c := Unwrap(e).value;
      ChainSuffix(c, i - 1);
      UnwrapSuffix(e);
      assert Chain(e)[i] == Chain(c)[i - 1];
    }
  }

  /** `errors.As(err, &oe)` with `oe *OpError`: the first `OpError` in the chain. */
  function FirstOpError(e: Error): (r: Option<Error>)
    ensures r.Some? ==> r.value.OpError?
    ensures r.None? <==> forall i :: 0 <= i < |Chain(e)| ==> !Chain(e)[i].OpError?
    ensures r.Some? ==>
      exists i :: 0 <= i < |Chain(e)| && Chain(e)[i] == r.value && forall j :: 0 <= j < i ==> !Chain(e)[j].OpError?
  {
    if e.OpError? then
      assert Chain(e)[0] == e;
      Some(e)
    else
      match Unwrap(e)
      case None => None
      case Some(c) =>
        var r := FirstOpError(c);
        assert Chain(e) == [e] + Chain(c);
        if r.Some? then
          var i :| 0 <= i < |Chain(c)| && Chain(c)[i] == r.value
            && forall j :: 0 <= j < i ==> !Chain(c)[j].OpError?;
          assert Chain(e)[i + 1] == r.value;
          r
        else r
  }

  /** `errors.As(err, &de)` with `de *Error`: the first domain `Error` in the chain. */
  function FirstDomainError(e: Error): (r: Option<Error>)
    ensures r.Some? ==> r.value.DomainError?
    ensures r.None? <==> forall i :: 0 <= i < |Chain(e)| ==> !Chain(e)[i].DomainError?
    ensures r.Some? ==>
      exists i :: 0 <= i < |Chain(e)| && Chain(e)[i] == r.value && forall j :: 0 <= j < i ==> !Chain(e)[j].DomainError?
  {
    if e.DomainError? then
      assert Chain(e)[0] == e;
      Some(e)
    else
      match Unwrap(e)
      case None => None
      case Some(c) =>
        var r := FirstDomainError(c);
        assert Chain(e) == [e] + Chain(c);
        if r.Some? then
          var i :| 0 <= i < |Chain(c)| && Chain(c)[i] == r.value
            && forall j :: 0 <= j < i ==> !Chain(c)[j].DomainError?;
          assert Chain(e)[i + 1] == r.value;
          r
        else r
  }

  /**
   * `IsKind`: decided by the first `OpError` in the chain; failing that, by the
   * first domain `Error`; failing that, false.
   */
  predicate IsKind(err: Option<Error>, kind: Kind) {
    match err
    case None => false
    case Some(e) =>
      match FirstOpError(e)
      case Some(oe) => oe.kind == kind
      case None =>
        match FirstDomainError(e)
        case Some(de) => de.kind == kind
        case None => false
  }

  /** The kind of an error, when `IsKind` holds for some kind. */
  function KindOf(e: Error): (r: Option<Kind>)
    ensures forall k :: IsKind(Some(e), k) <==> r == Some(k)
  {
    match FirstOpError(e)
    case Some(oe) => Some(oe.kind)
    case None =>
      match FirstDomainError(e)
      case Some(de) => Some(de.kind)
      case None => None
  }

  /** An error has at most one kind. */
  lemma IsKindUnique(e: Error, a: Kind, b: Kind)
    requires IsKind(Some(e), a) && IsKind(Some(e), b)
    ensures a == b
  {
    assert KindOf(e) == Some(a) && KindOf(e) == Some(b);
  }

  /** Wrapping with `fmt.Errorf("...%w", e)` keeps the kind. */
  lemma {:induction false} WrappedKeepsKind(prefix: string, e: Error, kind: Kind)
    ensures IsKind(Some(Wrapped(prefix, e)), kind) == IsKind(Some(e), kind)
  {
    assert FirstOpError(Wrapped(prefix, e)) == FirstOpError(e);
    assert FirstDomainError(Wrapped(prefix, e)) == FirstDomainError(e);
  }

  /** An `OpError` decides its own kind, whatever it wraps. */
  lemma OpErrorKind(op: string, k: Kind, path: string, err: Option<Error>, kind: Kind)
    ensures IsKind(Some(OpError(op, k, path, err)), kind) <==> k == kind
  {
  }

  /** A plain error has no kind. */
  lemma LeafHasNoKind(text: string, kind: Kind)
    ensures !IsKind(Some(Leaf(text)), kind)
  {
  }
}
