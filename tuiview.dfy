/**
 * Text the UI shows for a result: strings clamped to a width, a response body
 * pretty-printed when it is JSON, and the response pane with its headers,
 * body and truncation marker.
 */
module ResultView {
  import opened Common
  import opened Text
  import opened Json
  import opened Domain

  // ---- clampString ----

  const Ellipsis: char := '\U{2026}'

  /** The first `maxLen` characters and an ellipsis when `s` is longer; nothing for a width of zero or less. */
  function Clamp(s: string, maxLen: int): string {
    if maxLen <= 0 then ""
    else if |s| <= maxLen then s
    else s[..maxLen] + [Ellipsis]
  }

  /** `clampString`: the rune count first, then a loop copying runes until `maxLen` are written. */
  method ClampString(s: string, maxLen: int) returns (r: string)
    ensures r == Clamp(s, maxLen)
    ensures maxLen <= 0 ==> r == ""
    ensures 0 < maxLen && |s| <= maxLen ==> r == s
    ensures 0 < maxLen < |s| ==> r == s[..maxLen] + [Ellipsis]
  {
    if maxLen <= 0 {
      return "";
    }
    if |s| <= maxLen {
      return s;
    }
    var b := "";
    var n := 0;
    for i := 0 to |s|
      invariant n == i && n <= maxLen
      invariant b == s[..i]
    {
      if n >= maxLen {
        break;
      }
      b := b + [s[i]];
      n := n + 1;
    }
    r := b + [Ellipsis];
  }

  /**
   * A clamped string fits the width plus the ellipsis, is the string itself
   * or a prefix of it followed by the ellipsis, and clamping twice changes
   * nothing more.
   */
  lemma ClampMeans(s: string, maxLen: int)
    ensures maxLen > 0 ==> |Clamp(s, maxLen)| <= maxLen + 1
    ensures Clamp(s, maxLen) == [] || Clamp(s, maxLen) == s
      || (HasPrefix(s, Clamp(s, maxLen)[..maxLen]) && |Clamp(s, maxLen)| == maxLen + 1
          && Clamp(s, maxLen)[maxLen] == Ellipsis)
    ensures Clamp(Clamp(s, maxLen), maxLen) == Clamp(s, maxLen)
  {
    if 0 < maxLen < |s| {
      var r := s[..maxLen] + [Ellipsis];
      assert r[..maxLen] == s[..maxLen];
    }
  }

  // ---- prettyBody ----

  /** The white space `bytes.TrimSpace` removes, restricted to ASCII. */
  predicate SpaceByte(b: byte) {
    b == 9 || b == 10 || b == 11 || b == 12 || b == 13 || b == 32
  }

  function TrimLeftBytes(b: seq<byte>): (r: seq<byte>)
    ensures |r| <= |b| && r == b[|b| - |r|..]
    ensures r == [] || !SpaceByte(r[0])
    ensures forall k :: 0 <= k < |b| - |r| ==> SpaceByte(b[k])
  {
    if b != [] && SpaceByte(b[0]) then
      var r := TrimLeftBytes(b[1..]);
      assert forall k :: 1 <= k < |b| - |r| ==> b[k] == b[1..][k - 1];
      r
    else b
  }

  function TrimRightBytes(b: seq<byte>): (r: seq<byte>)
    ensures |r| <= |b| && r == b[..|r|]
    ensures r == [] || !SpaceByte(r[|r| - 1])
    ensures forall k :: |r| <= k < |b| ==> SpaceByte(b[k])
  {
    if b != [] && SpaceByte(b[|b| - 1]) then
      var r := TrimRightBytes(b[..|b| - 1]);
      assert forall k :: |r| <= k < |b| - 1 ==> b[k] == b[..|b| - 1][k];
      r
    else b
  }

  /** `bytes.TrimSpace`. */
  function TrimSpaceBytes(b: seq<byte>): seq<byte> {
    TrimRightBytes(TrimLeftBytes(b))
  }

  /** How many bytes of white space `TrimSpaceBytes` drops at the front. */
  function LeadingSpace(b: seq<byte>): nat {
    |b| - |TrimLeftBytes(b)|
  }

  /** Trimming keeps a contiguous part of the body and drops only white space before and after it. */
  lemma TrimSpaceKeepsMiddle(b: seq<byte>)
    ensures var r := TrimSpaceBytes(b); var lead := LeadingSpace(b);
      && lead + |r| <= |b| && r == b[lead..lead + |r|]
      && (forall k :: 0 <= k < lead ==> SpaceByte(b[k]))
      && (forall k :: lead + |r| <= k < |b| ==> SpaceByte(b[k]))
  {
    TrimSpaceSlice(b);
    TrimSpaceDropsSpace(b);
  }

  /** The trimmed body is the slice of the body after its leading white space. */
  lemma TrimSpaceSlice(b: seq<byte>)
    ensures LeadingSpace(b) + |TrimSpaceBytes(b)| <= |b|
    ensures TrimSpaceBytes(b) == b[LeadingSpace(b)..LeadingSpace(b) + |TrimSpaceBytes(b)|]
  {
    var l := TrimLeftBytes(b);
    var r := TrimRightBytes(l);
    var lead := |b| - |l|;
    assert l == b[lead..] && r == l[..|r|];
    assert b[lead..][..|r|] == b[lead..lead + |r|];
  }

  /** Everything before and after that slice is white space. */
  lemma TrimSpaceDropsSpace(b: seq<byte>)
    ensures forall k :: 0 <= k < LeadingSpace(b) ==> SpaceByte(b[k])
    ensures forall k :: LeadingSpace(b) + |TrimSpaceBytes(b)| <= k < |b| ==> SpaceByte(b[k])
  {
    var l := TrimLeftBytes(b);
    var r := TrimRightBytes(l);
    var lead := |b| - |l|;
    forall k | lead + |r| <= k < |b|
      ensures SpaceByte(b[k])
    {
      assert b[k] == l[k - lead];
    }
  }

  /** The trimmed body neither starts nor ends with white space, so trimming again changes nothing. */
  lemma TrimSpaceEdges(b: seq<byte>)
    ensures var r := TrimSpaceBytes(b);
      r == [] || (!SpaceByte(r[0]) && !SpaceByte(r[|r| - 1]))
    ensures TrimSpaceBytes(TrimSpaceBytes(b)) == TrimSpaceBytes(b)
  {
    var l := TrimLeftBytes(b);
    var r := TrimRightBytes(l);
    if r != [] {
      assert r[0] == l[0];
      assert TrimLeftBytes(r) == r;
    }
  }

  /**
   * `prettyBody`: an empty body is `(empty)`; JSON is re-indented; anything
   * else is shown trimmed of white space. `text` is Go's conversion of the
   * bytes to a string.
   */
  function PrettyBody(lib: JsonLib, text: seq<byte> -> string, body: seq<byte>): (r: string)
    ensures body == [] ==> r == "(empty)"
    ensures body != [] && lib.parse(body).Err? ==> r == text(TrimSpaceBytes(body))
    ensures body != [] && lib.parse(body).Ok? ==> r == lib.marshalIndent(lib.parse(body).value)
  {
    if |body| == 0 then "(empty)"
    else
      match lib.parse(body)
      case Ok(doc) => lib.marshalIndent(doc)
      case Err(_) => text(TrimSpaceBytes(body))
  }

  // ---- renderResultResponse ----

  /** `order` lists every header name once: the order in which the map is visited. */
  predicate Enumerates(order: seq<string>, h: map<string, seq<string>>) {
    && (forall i :: 0 <= i < |order| ==> order[i] in h)
    && (forall k :: k in h ==> k in order)
    && (forall i, j :: 0 <= i < j < |order| ==> order[i] != order[j])
  }

  function HeaderLine(name: string, vals: seq<string>): string {
    "  - " + name + ": " + Join(vals, ", ") + "\n"
  }

  function HeaderLines(h: map<string, seq<string>>, order: seq<string>): (r: string)
    requires forall i :: 0 <= i < |order| ==> order[i] in h
    ensures order != [] ==> HasPrefix(r, "  - ")
  {
    if order == [] then ""
    else
      assert forall i :: 0 <= i < |order[1..]| ==> order[1..][i] == order[i + 1];
      HeaderLine(order[0], h[order[0]]) + HeaderLines(h, order[1..])
  }

  function HeadersBlock(h: map<string, seq<string>>, order: seq<string>): string
    requires Enumerates(order, h)
  {
    if |h| == 0 then "  (none)\n" else HeaderLines(h, order)
  }

  const TruncatedMarker := "\n\n(truncated)"

  /** `renderResultResponse`. */
  function RenderResponse(lib: JsonLib, text: seq<byte> -> string, rr: RequestResult, order: seq<string>): string
    requires Enumerates(order, rr.response.headers)
  {
    "Headers:\n" + HeadersBlock(rr.response.headers, order) + "\nBody:\n"
    + PrettyBody(lib, text, rr.response.body)
    + (if rr.response.truncated then TruncatedMarker else "") + "\n"
  }

  /** The pane before the body. */
  function Head(rr: RequestResult, order: seq<string>): string
    requires Enumerates(order, rr.response.headers)
  {
    "Headers:\n" + HeadersBlock(rr.response.headers, order) + "\nBody:\n"
  }

  lemma RenderShape(lib: JsonLib, text: seq<byte> -> string, rr: RequestResult, order: seq<string>)
    requires Enumerates(order, rr.response.headers)
    ensures RenderResponse(lib, text, rr, order) ==
      Head(rr, order) + PrettyBody(lib, text, rr.response.body)
      + (if rr.response.truncated then TruncatedMarker else "") + "\n"
  {
  }

  const NoHeaders := "Headers:\n  (none)\n"

  /** A prefix no longer than the first part is decided by the first part. */
  lemma PrefixOfFirst(a: string, b: string, p: string)
    requires |p| <= |a|
    ensures HasPrefix(a + b, p) <==> HasPrefix(a, p)
  {
    assert (a + b)[..|p|] == a[..|p|];
  }

  lemma HeadNone(rr: RequestResult, order: seq<string>)
    requires Enumerates(order, rr.response.headers)
    ensures |NoHeaders| <= |Head(rr, order)|
    ensures HasPrefix(Head(rr, order), NoHeaders) <==> |rr.response.headers| == 0
  {
    var h := rr.response.headers;
    var x := Head(rr, order);
    if |h| != 0 {
      var k :| k in h;
      assert k in order;
      var lines := HeaderLines(h, order);
      assert HasPrefix(lines, "  - ");
      assert x == "Headers:\n" + lines + "\nBody:\n";
      assert x[11] == lines[2] == '-';
      assert NoHeaders[11] == '(';
    } else {
      assert x == NoHeaders + "\nBody:\n";
    }
  }

  /** The header list reads `(none)` exactly when the response has no headers. */
  lemma HeadersNoneMeans(lib: JsonLib, text: seq<byte> -> string, rr: RequestResult, order: seq<string>)
    requires Enumerates(order, rr.response.headers)
    ensures HasPrefix(RenderResponse(lib, text, rr, order), NoHeaders) <==> |rr.response.headers| == 0
  {
    RenderShape(lib, text, rr, order);
    HeadNone(rr, order);
    PrefixOfFirst(Head(rr, order), PrettyBody(lib, text, rr.response.body)
      + (if rr.response.truncated then TruncatedMarker else "") + "\n", NoHeaders);
  }

  /** A suffix that would have to run across a character it does not hold is not a suffix of the whole unless of the last part. */
  lemma SuffixWithin(x: string, y: string, m: string)
    requires x != [] && x[|x| - 1] !in m
    requires !HasSuffix(y, m)
    ensures !HasSuffix(x + y, m)
  {
    var xy := x + y;
    if |m| > |y| && |m| <= |xy| {
      assert xy[|xy| - |m|..][|m| - |y| - 1] == x[|x| - 1];
    } else if |m| <= |y| {
      assert xy[|xy| - |m|..] == y[|y| - |m|..];
    }
  }

  /** A final newline is matched by a final newline. */
  lemma SuffixNewline(s: string, m: string)
    ensures HasSuffix(s + "\n", m + "\n") <==> HasSuffix(s, m)
  {
    if |m| <= |s| {
      var t := s[|s| - |m|..];
      assert (s + "\n")[|s| - |m|..] == t + "\n";
      assert (t + "\n")[..|m|] == t && (m + "\n")[..|m|] == m;
    }
  }

  /** The end of the pane, after any text `x` that ends in a newline. */
  lemma TailShown(x: string, body: string, truncated: bool)
    requires x != [] && x[|x| - 1] == '\n'
    ensures truncated ==>
      HasSuffix(x + body + (if truncated then TruncatedMarker else "") + "\n", body + TruncatedMarker + "\n")
    ensures !HasSuffix(body, "(truncated)") ==>
      (HasSuffix(x + body + (if truncated then TruncatedMarker else "") + "\n", "(truncated)\n") <==> truncated)
  {
    if truncated {
      var tail := body + TruncatedMarker + "\n";
      assert x + body + TruncatedMarker + "\n" == x + tail;
      assert (x + tail)[|x + tail| - |tail|..] == tail;
      assert tail[|tail| - 12..] == "(truncated)\n";
      assert (x + tail)[|x + tail| - 12..] == tail[|tail| - 12..];
    } else {
      assert x + body + "" + "\n" == (x + body) + "\n";
      SuffixNewline(x + body, "(truncated)");
      if !HasSuffix(body, "(truncated)") {
        SuffixWithin(x, body, "(truncated)");
      }
    }
  }

  /**
   * A truncated body is followed by the `(truncated)` marker; when the body
   * does not end in the marker text itself, the pane ends in the marker
   * exactly when the body was truncated.
   */
  lemma TruncationShown(lib: JsonLib, text: seq<byte> -> string, rr: RequestResult, order: seq<string>)
    requires Enumerates(order, rr.response.headers)
    ensures rr.response.truncated ==>
      HasSuffix(RenderResponse(lib, text, rr, order), PrettyBody(lib, text, rr.response.body) + TruncatedMarker + "\n")
    ensures !HasSuffix(PrettyBody(lib, text, rr.response.body), "(truncated)") ==>
      (HasSuffix(RenderResponse(lib, text, rr, order), "(truncated)\n") <==> rr.response.truncated)
  {
    var x := Head(rr, order);
    RenderShape(lib, text, rr, order);
    assert x[|x| - 1] == '\n';
    TailShown(x, PrettyBody(lib, text, rr.response.body), rr.response.truncated);
  }
}
