/**
 * The parts of Go's `strings`, `strconv` and `unicode/utf8` packages that the
 * core relies on, over Dafny strings (sequences of Unicode scalar values, which
 * is what Go's `for _, r := range s` visits).
 */
module Text {
  import opened Common

  newtype byte = x: int | 0 <= x < 256

  /** `unicode.IsSpace`: the ASCII white space, NEL, NBSP and the Unicode space separators. */
  predicate IsSpace(c: char) {
    c in SpaceChars
  }

  const SpaceChars: set<char> := {
    ' ', '\t', '\n', '\r', '\U{B}', '\U{C}', '\U{85}', '\U{A0}', '\U{1680}',
    '\U{2000}', '\U{2001}', '\U{2002}', '\U{2003}', '\U{2004}', '\U{2005}', '\U{2006}',
    '\U{2007}', '\U{2008}', '\U{2009}', '\U{200A}',
    '\U{2028}', '\U{2029}', '\U{202F}', '\U{205F}', '\U{3000}'}

  predicate IsBlank(s: string) {
    forall i :: 0 <= i < |s| ==> IsSpace(s[i])
  }

  /** `strings.TrimLeft` of white space: drops the leading run of spaces and nothing else. */
  function TrimLeftSpace(s: string): (r: string)
    ensures |r| <= |s|
  {
    if s != [] && IsSpace(s[0]) then TrimLeftSpace(s[1..]) else s
  }

  lemma {:induction false} TrimLeftSpaceFacts(s: string)
    ensures var r := TrimLeftSpace(s);
      && r == s[|s| - |r|..]
      && (r == [] || !IsSpace(r[0]))
      && forall i :: 0 <= i < |s| - |r| ==> IsSpace(s[i])
    decreases |s|
  {
    if s != [] && IsSpace(s[0]) {
      TrimLeftSpaceFacts(s[1..]);
      assert s[1..][|s| - 1 - |TrimLeftSpace(s)|..] == s[|s| - |TrimLeftSpace(s)|..];
      forall i | 1 <= i < |s| - |TrimLeftSpace(s)|
        ensures IsSpace(s[i])
      {
        assert s[i] == s[1..][i - 1];
      }
    }
  }

  /** `strings.TrimRight` of white space: drops the trailing run of spaces and nothing else. */
  function TrimRightSpace(s: string): (r: string)
    ensures |r| <= |s|
  {
    if s != [] && IsSpace(s[|s| - 1]) then TrimRightSpace(s[..|s| - 1]) else s
  }

  lemma {:induction false} TrimRightSpaceFacts(s: string)
    ensures var r := TrimRightSpace(s);
      && r == s[..|r|]
      && (r == [] || !IsSpace(r[|r| - 1]))
      && forall i :: |r| <= i < |s| ==> IsSpace(s[i])
    decreases |s|
  {
    if s != [] && IsSpace(s[|s| - 1]) {
      TrimRightSpaceFacts(s[..|s| - 1]);
      assert s[..|s| - 1][..|TrimRightSpace(s)|] == s[..|TrimRightSpace(s)|];
      forall i | |TrimRightSpace(s)| <= i < |s| - 1
        ensures IsSpace(s[i])
      {
        assert s[i] == s[..|s| - 1][i];
      }
    }
  }

  /** `strings.TrimSpace`. */
  function TrimSpace(s: string): (r: string)
    ensures r == [] <==> IsBlank(s)
    ensures r != [] ==> !IsSpace(r[0]) && !IsSpace(r[|r| - 1])
  {
    var l := TrimLeftSpace(s);
    TrimLeftSpaceFacts(s);
    TrimRightSpaceFacts(l);
    var r := TrimRightSpace(l);
    assert r != [] ==> r[0] == l[0];
    r
  }

  lemma TrimSpaceOfNonBlankEdges(s: string)
    requires s != [] && !IsSpace(s[0]) && !IsSpace(s[|s| - 1])
    ensures TrimSpace(s) == s
  {
  }

  /** `strings.TrimLeft(s, cutset)`. */
  function TrimLeftSet(s: string, cut: set<char>): (r: string)
    ensures |r| <= |s| && r == s[|s| - |r|..]
    ensures r == [] || r[0] !in cut
  {
    if s != [] && s[0] in cut then TrimLeftSet(s[1..], cut) else s
  }

  /** `strings.TrimRight(s, cutset)`. */
  function TrimRightSet(s: string, cut: set<char>): (r: string)
    ensures |r| <= |s| && r == s[..|r|]
    ensures r == [] || r[|r| - 1] !in cut
  {
    if s != [] && s[|s| - 1] in cut then TrimRightSet(s[..|s| - 1], cut) else s
  }

  /** `strings.Trim(s, cutset)`. */
  function TrimSet(s: string, cut: set<char>): string {
    TrimRightSet(TrimLeftSet(s, cut), cut)
  }

  /** ASCII case mapping (see the README for the Unicode cases this does not cover). */
  function LowerChar(c: char): char {
    if 'A' <= c <= 'Z' then (c as int + 32) as char else c
  }

  function UpperChar(c: char): char {
    if 'a' <= c <= 'z' then (c as int - 32) as char else c
  }

  function ToLower(s: string): string {
    seq(|s|, i requires 0 <= i < |s| => LowerChar(s[i]))
  }

  function ToUpper(s: string): string {
    seq(|s|, i requires 0 <= i < |s| => UpperChar(s[i]))
  }

  /** `strings.EqualFold`, restricted to ASCII folding. */
  predicate EqualFold(a: string, b: string) {
    ToLower(a) == ToLower(b)
  }

  predicate OccursAt(s: string, sub: string, i: int) {
    0 <= i && i + |sub| <= |s| && s[i..i + |sub|] == sub
  }

  /** `strings.Contains`. */
  predicate Contains(s: string, sub: string) {
    IndexFrom(s, sub, 0) >= 0
  }

  lemma ContainsAt(s: string, sub: string, i: int)
    requires OccursAt(s, sub, i)
    ensures Contains(s, sub)
  {
  }

  predicate HasPrefix(s: string, p: string) {
    |p| <= |s| && s[..|p|] == p
  }

  predicate HasSuffix(s: string, p: string) {
    |p| <= |s| && s[|s| - |p|..] == p
  }

  /** A string ends with whatever is appended to it. */
  lemma SuffixOfAppend(a: string, b: string)
    ensures HasSuffix(a + b, b)
  {
    assert (a + b)[|a|..] == b;
  }

  /** `strings.TrimSuffix`. */
  function TrimSuffix(s: string, p: string): (r: string)
    ensures HasSuffix(s, p) ==> r + p == s
    ensures !HasSuffix(s, p) ==> r == s
  {
    if HasSuffix(s, p) then s[..|s| - |p|] else s
  }

  /** `strings.TrimPrefix`. */
  function TrimPrefix(s: string, p: string): (r: string)
    ensures HasPrefix(s, p) ==> p + r == s
    ensures !HasPrefix(s, p) ==> r == s
  {
    if HasPrefix(s, p) then s[|p|..] else s
  }

  /** The first occurrence of `sub` at or after `i`, or -1. */
  function IndexFrom(s: string, sub: string, i: nat): (r: int)
    requires i <= |s|
    decreases |s| - i
    ensures r == -1 || (i <= r && OccursAt(s, sub, r))
    ensures r == -1 ==> forall j :: i <= j ==> !OccursAt(s, sub, j)
    ensures r >= 0 ==> forall j :: i <= j < r ==> !OccursAt(s, sub, j)
  {
    if i + |sub| > |s| then -1
    else if s[i..i + |sub|] == sub then i
    else IndexFrom(s, sub, i + 1)
  }

  /** The first occurrence at or after `i` is found. */
  lemma {:induction false} IndexFromIs(s: string, sub: string, i: nat, k: nat)
    requires i <= k && OccursAt(s, sub, k)
    requires forall j :: i <= j < k ==> !OccursAt(s, sub, j)
    ensures IndexFrom(s, sub, i) == k
    decreases k - i
  {
    if i < k {
      assert !OccursAt(s, sub, i);
      IndexFromIs(s, sub, i + 1, k);
    }
  }

  /** `strings.Index`. */
  function IndexOf(s: string, sub: string): (r: int)
    ensures r == -1 || OccursAt(s, sub, r)
    ensures r == -1 <==> !Contains(s, sub)
    ensures r >= 0 ==> forall j :: 0 <= j < r ==> !OccursAt(s, sub, j)
  {
    IndexFrom(s, sub, 0)
  }

  /** The last occurrence of `sub` at or before `i`, or -1. */
  function LastIndexUpTo(s: string, sub: string, i: int): (r: int)
    decreases i + 1
    ensures r == -1 || (r <= i && OccursAt(s, sub, r))
    ensures r == -1 ==> forall j :: j <= i ==> !OccursAt(s, sub, j)
    ensures r >= 0 ==> forall j :: r < j <= i ==> !OccursAt(s, sub, j)
  {
    if i < 0 then -1
    else if OccursAt(s, sub, i) then i
    else LastIndexUpTo(s, sub, i - 1)
  }

  /** `strings.LastIndex`. */
  function LastIndexOf(s: string, sub: string): (r: int)
    ensures r == -1 || OccursAt(s, sub, r)
    ensures r == -1 ==> forall j :: !OccursAt(s, sub, j)
    ensures r >= 0 ==> forall j :: r < j ==> !OccursAt(s, sub, j)
  {
    LastIndexUpTo(s, sub, |s| - |sub|)
  }

  /** The index of the first `c` in `s`, or -1. */
  function IndexOfChar(s: string, c: char): (r: int)
    ensures -1 <= r < |s|
    ensures r >= 0 ==> s[r] == c
  {
    if s == [] then -1
    else if s[0] == c then 0
    else
      var k := IndexOfChar(s[1..], c);
      if k < 0 then -1 else k + 1
  }

  /** The index found is the first `c`, and -1 means there is none. */
  lemma {:induction false} IndexOfCharMeans(s: string, c: char)
    ensures IndexOfChar(s, c) >= 0 ==> c !in s[..IndexOfChar(s, c)]
    ensures IndexOfChar(s, c) == -1 <==> c !in s
    decreases |s|
  {
    if s != [] && s[0] != c {
      IndexOfCharMeans(s[1..], c);
      assert s == [s[0]] + s[1..];
      if IndexOfChar(s, c) >= 0 {
        assert s[..IndexOfChar(s, c)] == [s[0]] + s[1..][..IndexOfChar(s[1..], c)];
      }
    }
  }

  /** The index of the last `c` in `s`, or -1. */
  function LastIndexOfChar(s: string, c: char): (r: int)
    ensures -1 <= r < |s|
    ensures r >= 0 ==> s[r] == c && c !in s[r + 1..]
    ensures r == -1 ==> c !in s
  {
    if s == [] then -1
    else if s[|s| - 1] == c then |s| - 1
    else
      var k := LastIndexOfChar(s[..|s| - 1], c);
      assert s[..|s| - 1] + [s[|s| - 1]] == s;
      k
  }

  /** `strings.Split(s, string(sep))`. */
  function Split(s: string, sep: char): (r: seq<string>)
    ensures |r| >= 1
    decreases |s|
  {
    var i := IndexOfChar(s, sep);
    if i < 0 then [s] else [s[..i]] + Split(s[i + 1..], sep)
  }

  /** The empty string splits into one empty piece. */
  lemma SplitEmpty(sep: char)
    ensures Split("", sep) == [""]
  {
  }

  /** Splitting at the first separator: the piece before it, then the split of the rest. */
  lemma SplitAt(s: string, sep: char, i: int)
    requires 0 <= i == IndexOfChar(s, sep)
    ensures Split(s, sep) == [s[..i]] + Split(s[i + 1..], sep)
  {
  }

  /** A string holding the separator has a first one. */
  lemma IndexOfCharFound(s: string, sep: char, j: int)
    requires 0 <= j < |s| && s[j] == sep
    ensures 0 <= IndexOfChar(s, sep) <= j
  {
    IndexOfCharMeans(s, sep);
    assert s[j] in s;
    var r := IndexOfChar(s, sep);
    assert forall k :: 0 <= k < r ==> s[..r][k] == s[k];
  }

  /** No element of a split contains the separator. */
  lemma {:induction false} SplitNoSeparator(s: string, sep: char)
    ensures forall k :: 0 <= k < |Split(s, sep)| ==> sep !in Split(s, sep)[k]
    decreases |s|
  {
    var i := IndexOfChar(s, sep);
    IndexOfCharMeans(s, sep);
    if i >= 0 {
      SplitNoSeparator(s[i + 1..], sep);
    }
  }

  /** `strings.Join`. */
  function Join(parts: seq<string>, sep: string): (r: string)
    ensures parts != [] ==> HasPrefix(r, parts[0])
  {
    if parts == [] then ""
    else if |parts| == 1 then parts[0]
    else parts[0] + sep + Join(parts[1..], sep)
  }

  /** Splitting on a character and joining back with it gives the original string. */
  lemma {:induction false} JoinSplit(s: string, sep: char)
    ensures Join(Split(s, sep), [sep]) == s
    decreases |s|
  {
    var i := IndexOfChar(s, sep);
    if i >= 0 {
      JoinSplit(s[i + 1..], sep);
      JoinSplitStep(s, sep, i);
    }
  }

  /** One step of `JoinSplit`: the text before the first separator, the separator, then the rest. */
  lemma JoinSplitStep(s: string, sep: char, i: int)
    requires 0 <= i == IndexOfChar(s, sep)
    requires Join(Split(s[i + 1..], sep), [sep]) == s[i + 1..]
    ensures Join(Split(s, sep), [sep]) == s
  {
    var head, rest := s[..i], s[i + 1..];
    var parts := Split(rest, sep);
    assert Split(s, sep) == [head] + parts;
    JoinCons(head, parts, [sep]);
    Around(s, i);
  }

  /** A string is the text before position `i`, the character there, and the text after it. */
  lemma Around(s: string, i: int)
    requires 0 <= i < |s|
    ensures s == s[..i] + [s[i]] + s[i + 1..]
  {
    assert s[..i] + [s[i]] == s[..i + 1];
  }

  /** Joining a part in front of a non-empty list puts the separator between them. */
  lemma JoinCons(p: string, parts: seq<string>, sep: string)
    requires parts != []
    ensures Join([p] + parts, sep) == p + sep + Join(parts, sep)
  {
    assert ([p] + parts)[1..] == parts;
  }

  /** `strings.ReplaceAll(s, old, new)` for a non-empty `old`: non-overlapping, left to right. */
  function ReplaceAll(s: string, pat: string, rep: string): string
    requires |pat| > 0
    decreases |s|
  {
    if |s| < |pat| then s
    else if s[..|pat|] == pat then rep + ReplaceAll(s[|pat|..], pat, rep)
    else [s[0]] + ReplaceAll(s[1..], pat, rep)
  }

  lemma {:induction false} ReplaceAllAbsent(s: string, pat: string, rep: string)
    requires |pat| > 0 && !Contains(s, pat)
    ensures ReplaceAll(s, pat, rep) == s
    decreases |s|
  {
    if |s| >= |pat| {
      assert !OccursAt(s, pat, 0);
      forall j | 0 <= j
        ensures !OccursAt(s[1..], pat, j)
      {
        OccursShift(s, pat, j);
      }
      assert !Contains(s[1..], pat);
      ReplaceAllAbsent(s[1..], pat, rep);
    }
  }

  /** An occurrence in the tail of `s` is an occurrence in `s`, one position later. */
  lemma OccursShift(s: string, pat: string, j: int)
    requires s != []
    ensures OccursAt(s[1..], pat, j) ==> OccursAt(s, pat, j + 1)
  {
    if 0 <= j && j + |pat| <= |s| - 1 {
      assert s[1..][j..j + |pat|] == s[j + 1..j + 1 + |pat|];
    }
  }

  /** The first element of `strings.Fields(s)`: it exists only when `s` is not blank. */
  function FirstField(s: string): (r: string)
    requires !IsBlank(s)
    ensures r != [] && forall i :: 0 <= i < |r| ==> !IsSpace(r[i])
  {
    var t := TrimLeftSpace(s);
    TrimLeftSpaceFacts(s);
    TakeUntilSpace(t)
  }

  function TakeUntilSpace(s: string): (r: string)
    ensures HasPrefix(s, r)
    ensures forall i :: 0 <= i < |r| ==> !IsSpace(r[i])
    ensures |r| == |s| || IsSpace(s[|r|])
  {
    if s == [] || IsSpace(s[0]) then [] else [s[0]] + TakeUntilSpace(s[1..])
  }

  function Digit(d: nat): char
    requires d < 10
  {
    "0123456789"[d]
  }

  /** `strconv.Itoa` of a natural number. */
  function NatToString(n: nat): (r: string)
    ensures |r| >= 1
    ensures forall i :: 0 <= i < |r| ==> '0' <= r[i] <= '9'
  {
    if n < 10 then [Digit(n)] else NatToString(n / 10) + [Digit(n % 10)]
  }

  /** `%d` formatting of an integer. */
  function IntToString(n: int): string {
    if n < 0 then "-" + NatToString(-n) else NatToString(n)
  }

  function EscapeChar(c: char): string {
    if c == '"' then "\\\""
    else if c == '\\' then "\\\\"
    else if c == '\n' then "\\n"
    else if c == '\t' then "\\t"
    else if c == '\r' then "\\r"
    else [c]
  }

  function Escape(s: string): string {
    if s == [] then "" else EscapeChar(s[0]) + Escape(s[1..])
  }

  /** An escaped character starts with a backslash exactly when it is two characters long. */
  lemma EscapeCharShape(c: char)
    ensures 1 <= |EscapeChar(c)| <= 2
    ensures |EscapeChar(c)| == 2 <==> EscapeChar(c)[0] == '\\'
    ensures |EscapeChar(c)| == 1 ==> EscapeChar(c) == [c]
  {
  }

  /** Different strings escape differently: each escape is recognisable from its first character. */
  lemma {:induction false} EscapeInjective(a: string, b: string)
    requires Escape(a) == Escape(b)
    ensures a == b
    decreases |a|
  {
    if a != [] && b != [] {
      var ea := EscapeChar(a[0]);
      var eb := EscapeChar(b[0]);
      EscapeCharShape(a[0]);
      EscapeCharShape(b[0]);
      var s := Escape(a);
      assert s == ea + Escape(a[1..]) && s == eb + Escape(b[1..]);
      assert s[0] == ea[0] && s[0] == eb[0];
      assert |ea| == |eb|;
      assert s[..|ea|] == ea && s[..|eb|] == eb;
      assert a[0] == b[0];
      assert Escape(a[1..]) == s[|ea|..] == Escape(b[1..]);
      EscapeInjective(a[1..], b[1..]);
    } else if a != [] {
      EscapeCharShape(a[0]);
    } else if b != [] {
      EscapeCharShape(b[0]);
    }
  }

  lemma QuoteInjective(a: string, b: string)
    requires Quote(a) == Quote(b)
    ensures a == b
  {
    assert Escape(a) == Quote(a)[1..|Quote(a)| - 1];
    assert Escape(b) == Quote(b)[1..|Quote(b)| - 1];
    EscapeInjective(a, b);
  }

  /** `%q` formatting of a string (see the README for the escapes not modelled). */
  function Quote(s: string): (r: string)
    ensures |r| >= 2 && r[0] == '"' && r[|r| - 1] == '"'
  {
    "\"" + Escape(s) + "\""
  }

  /** UTF-8 encoding of one scalar value (Go's `[]byte(string)` conversion, per character). */
  function EncodeChar(c: char): (r: seq<byte>)
    ensures 1 <= |r| <= 4
  {
    var n := c as int;
    if n < 0x80 then [n as byte]
    else if n < 0x800 then [(0xC0 + n / 64) as byte, (0x80 + n % 64) as byte]
    else if n < 0x10000 then
      [(0xE0 + n / 4096) as byte, (0x80 + (n / 64) % 64) as byte, (0x80 + n % 64) as byte]
    else
      [(0xF0 + n / 262144) as byte, (0x80 + (n / 4096) % 64) as byte,
       (0x80 + (n / 64) % 64) as byte, (0x80 + n % 64) as byte]
  }

  /** `[]byte(s)`. */
  function Utf8(s: string): (r: seq<byte>)
    ensures |r| >= |s|
  {
    if s == [] then [] else EncodeChar(s[0]) + Utf8(s[1..])
  }
}
