/**
 * The parts of `net/http` and `net/textproto` that the request shaping relies
 * on: canonical header names, `Header.Set` and `Header.Get`, and the shape of
 * an outgoing request and of a response. Building a request, sending it and
 * encoding form values are functions of a `Net` value.
 */
module HttpModel {
  import opened Common
  import opened Text
  import opened Errors

  /** A header map: canonical name to its values. */
  type Header = map<string, seq<string>>

  const ContentType := "Content-Type"

  const TokenPunctuation: set<char> := {'!', '#', '$', '%', '&', '\'', '*', '+', '-', '.', '^', '_', '`', '|', '~'}

  /** A byte allowed in a header field name. */
  predicate IsTokenChar(c: char) {
    'a' <= c <= 'z' || 'A' <= c <= 'Z' || '0' <= c <= '9' || c in TokenPunctuation
  }

  /** Every character is a token character. */
  predicate AllTokens(s: string) {
    s == [] || (IsTokenChar(s[0]) && AllTokens(s[1..]))
  }

  /** Letters upper-cased at the start and after each dash, lower-cased elsewhere. */
  function CanonicalFrom(s: string, upper: bool): (r: string)
    ensures |r| == |s|
    ensures forall i :: 0 <= i < |s| ==> (r[i] == '-' <==> s[i] == '-')
    ensures AllTokens(r) <==> AllTokens(s)
  {
    if s == [] then []
    else [if upper then UpperChar(s[0]) else LowerChar(s[0])] + CanonicalFrom(s[1..], s[0] == '-')
  }

  /** `textproto.CanonicalMIMEHeaderKey`: a name with a byte outside the token set is left as it is. */
  function CanonicalKey(s: string): string {
    if AllTokens(s) then CanonicalFrom(s, true) else s
  }

  lemma {:induction false} CanonicalFromIdempotent(s: string, upper: bool)
    ensures CanonicalFrom(CanonicalFrom(s, upper), upper) == CanonicalFrom(s, upper)
    decreases |s|
  {
    if s != [] {
      var r := CanonicalFrom(s, upper);
      assert r[1..] == CanonicalFrom(s[1..], s[0] == '-');
      CanonicalFromIdempotent(s[1..], s[0] == '-');
    }
  }

  /** Canonicalising a canonical name changes nothing. */
  lemma CanonicalKeyIdempotent(s: string)
    ensures CanonicalKey(CanonicalKey(s)) == CanonicalKey(s)
  {
    if AllTokens(s) {
      CanonicalFromIdempotent(s, true);
    }
  }

  /** `Header.Set(k, v)`: the canonical name now holds exactly `v`. */
  function SetHeader(h: Header, k: string, v: string): Header {
    h[CanonicalKey(k) := [v]]
  }

  /** `Header.Get(k)`: the first value under the canonical name, or "". */
  function GetHeader(h: Header, k: string): string {
    var c := CanonicalKey(k);
    if c in h && |h[c]| > 0 then h[c][0] else ""
  }

  /** What `Set` stores, `Get` finds; names with other canonical forms are untouched. */
  lemma GetAfterSet(h: Header, k: string, v: string, other: string)
    ensures GetHeader(SetHeader(h, k, v), k) == v
    ensures CanonicalKey(other) != CanonicalKey(k) ==> GetHeader(SetHeader(h, k, v), other) == GetHeader(h, other)
  {
  }

  /** `for k, v := range m { h.Set(k, v) }`, visiting the keys in `order`. */
  function SetAll(h: Header, m: StringMap, order: seq<string>): Header
    requires forall i :: 0 <= i < |order| ==> order[i] in m
  {
    if order == [] then h
    else
      var k := order[|order| - 1];
      SetHeader(SetAll(h, m, order[..|order| - 1]), k, m[k])
  }

  /**
   * After setting every key of `order`, a name is found with the value of the
   * last key of `order` that has its canonical form, or as it was if none has.
   */
  lemma {:induction false} GetAfterSetAll(h: Header, m: StringMap, order: seq<string>, k: string)
    requires forall i :: 0 <= i < |order| ==> order[i] in m
    ensures (forall i :: 0 <= i < |order| ==> CanonicalKey(order[i]) != CanonicalKey(k)) ==>
      GetHeader(SetAll(h, m, order), k) == GetHeader(h, k)
    ensures forall i :: 0 <= i < |order| && CanonicalKey(order[i]) == CanonicalKey(k)
                        && (forall j :: i < j < |order| ==> CanonicalKey(order[j]) != CanonicalKey(k)) ==>
      GetHeader(SetAll(h, m, order), k) == m[order[i]]
  {
    if forall i :: 0 <= i < |order| ==> CanonicalKey(order[i]) != CanonicalKey(k) {
      SetAllUntouched(h, m, order, k);
    }
    forall i | 0 <= i < |order| && CanonicalKey(order[i]) == CanonicalKey(k)
               && (forall j :: i < j < |order| ==> CanonicalKey(order[j]) != CanonicalKey(k))
      ensures GetHeader(SetAll(h, m, order), k) == m[order[i]]
    {
      SetAllLast(h, m, order, k, i);
    }
  }

  /** A name no key of `order` canonicalises to keeps its value. */
  lemma {:induction false} SetAllUntouched(h: Header, m: StringMap, order: seq<string>, k: string)
    requires forall i :: 0 <= i < |order| ==> order[i] in m
    requires forall i :: 0 <= i < |order| ==> CanonicalKey(order[i]) != CanonicalKey(k)
    ensures GetHeader(SetAll(h, m, order), k) == GetHeader(h, k)
    decreases |order|
  {
    if order != [] {
      var n := |order| - 1;
      SetAllUntouched(h, m, order[..n], k);
      GetAfterSet(SetAll(h, m, order[..n]), order[n], m[order[n]], k);
    }
  }

  /** The last key of `order` with the name's canonical form decides its value. */
  lemma {:induction false} SetAllLast(h: Header, m: StringMap, order: seq<string>, k: string, i: int)
    requires forall j :: 0 <= j < |order| ==> order[j] in m
    requires 0 <= i < |order| && CanonicalKey(order[i]) == CanonicalKey(k)
    requires forall j :: i < j < |order| ==> CanonicalKey(order[j]) != CanonicalKey(k)
    ensures GetHeader(SetAll(h, m, order), k) == m[order[i]]
    decreases |order|
  {
    var n := |order| - 1;
    var before := SetAll(h, m, order[..n]);
    GetAfterSet(before, order[n], m[order[n]], k);
    if i < n {
      SetAllLast(h, m, order[..n], k, i);
    } else {
      assert GetHeader(SetHeader(before, order[n], m[order[n]]), k)
          == GetHeader(SetHeader(before, order[n], m[order[n]]), order[n]);
    }
  }

  /** The header names `SetAll` fills in are the canonical forms of the keys. */
  lemma {:induction false} SetAllKeys(h: Header, m: StringMap, order: seq<string>)
    requires forall i :: 0 <= i < |order| ==> order[i] in m
    ensures SetAll(h, m, order).Keys == h.Keys + set i | 0 <= i < |order| :: CanonicalKey(order[i])
    decreases |order|
  {
    if order != [] {
      var n := |order| - 1;
      SetAllKeys(h, m, order[..n]);
      assert (set i | 0 <= i < |order| :: CanonicalKey(order[i]))
          == (set i | 0 <= i < n :: CanonicalKey(order[..n][i])) + {CanonicalKey(order[n])};
    }
  }

  /** The loop of `Header.Set` calls over a map, in one of Go's orders. */
  method SetEach(h: Header, m: StringMap) returns (out: Header, ghost order: seq<string>)
    ensures IsEnumeration(order, m.Keys)
    ensures out == SetAll(h, m, order)
  {
    out := h;
    order := [];
    var todo := m.Keys;
    while todo != {}
      invariant todo <= m.Keys
      invariant |order| + |todo| == |m.Keys|
      invariant forall i :: 0 <= i < |order| ==> order[i] in m && order[i] !in todo
      invariant forall i, j :: 0 <= i < j < |order| ==> order[i] != order[j]
      invariant out == SetAll(h, m, order)
      decreases todo
    {
      var k :| k in todo;
      assert (order + [k])[..|order|] == order;
      out := SetHeader(out, k, m[k]);
      order := order + [k];
      todo := todo - {k};
    }
  }

  /** A byte stream: its bytes, then either the end or a read error. */
  datatype Stream = Stream(data: seq<byte>, failure: Option<Error>)

  /** `io.ReadAll(io.LimitReader(s, n))`: at most `n` bytes, an error only if it comes before the limit. */
  function ReadAtMost(s: Stream, n: nat): (r: Result<seq<byte>, Error>)
    ensures r.Ok? ==> |r.value| <= n && |r.value| <= |s.data| && r.value == s.data[..|r.value|]
    ensures r.Err? <==> |s.data| < n && s.failure.Some?
  {
    if n <= |s.data| then Ok(s.data[..n])
    else if s.failure.Some? then Err(s.failure.value)
    else Ok(s.data)
  }

  /** An outgoing request as `http.NewRequestWithContext` and the header map leave it. */
  datatype Request = Request(verb: string, url: string, header: Header, body: seq<byte>)

  datatype Response = Response(status: int, header: Header, body: Stream)

  /**
   * The network side: `http.NewRequestWithContext`'s error for a method and a
   * URL (None when it accepts them), `client.Do`, `url.Values.Encode`.
   */
  datatype Net = Net(
    newRequest: (string, string) -> Option<Error>,
    send: Request -> Result<Response, Error>,
    encodeForm: StringMap -> string)
}
