/**
 * Go's `path/filepath` on a Unix system, where the separator is '/' and there
 * are no volume names: `Clean`, `Dir`, `Base`, `Ext`, `Join` and `IsAbs`.
 * `Clean` works lexically, element by element, as the Go function does.
 */
module Paths {
  import opened Text

  const Separator: char := '/'

  predicate IsAbs(p: string) {
    p != [] && p[0] == Separator
  }

  /** One element of the lexical walk of `Clean`: drop "" and ".", let ".." undo the previous name. */
  function Step(rooted: bool, stack: seq<string>, e: string): seq<string> {
    if e == "" || e == "." then stack
    else if e == ".." then
      if stack != [] && stack[|stack| - 1] != ".." then stack[..|stack| - 1]
      else if rooted then stack
      else stack + [".."]
    else stack + [e]
  }

  function Normalize(rooted: bool, parts: seq<string>, stack: seq<string>): (r: seq<string>)
    ensures (forall i :: 0 <= i < |stack| ==> stack[i] != "") ==> forall i :: 0 <= i < |r| ==> r[i] != ""
    decreases |parts|
  {
    if parts == [] then stack else Normalize(rooted, parts[1..], Step(rooted, stack, parts[0]))
  }

  /** `filepath.Clean`: the shortest lexically equivalent path. */
  function Clean(p: string): (r: string)
    ensures r != []
    ensures IsAbs(p) ==> IsAbs(r)
  {
    if p == [] then "."
    else
      var rooted := p[0] == Separator;
      var names := Normalize(rooted, Split(p, Separator), []);
      if rooted then "/" + Join(names, "/")
      else if names == [] then "."
      else Join(names, "/")
  }

  /** `filepath.Dir`: everything up to the last separator, cleaned. */
  function Dir(p: string): (r: string)
    ensures r != []
  {
    var i := LastIndexOfChar(p, Separator);
    Clean(p[..i + 1])
  }

  function TrimTrailingSeparators(p: string): (r: string)
    ensures HasPrefix(p, r)
    ensures r == [] || r[|r| - 1] != Separator
  {
    if p != [] && p[|p| - 1] == Separator then TrimTrailingSeparators(p[..|p| - 1]) else p
  }

  /** `filepath.Base`: the last element, with trailing separators removed. */
  function Base(p: string): (r: string)
    ensures r != []
    ensures r == "/" || Separator !in r
  {
    if p == [] then "."
    else
      var q := TrimTrailingSeparators(p);
      var i := LastIndexOfChar(q, Separator);
      var last := q[i + 1..];
      if last == [] then "/" else last
  }

  /** `filepath.Ext`: the suffix from the last '.' of the final element, or "". */
  function Ext(p: string): (r: string)
    ensures r == [] || (r[0] == '.' && HasSuffix(p, r) && Separator !in r)
  {
    if p == [] || p[|p| - 1] == Separator then ""
    else if p[|p| - 1] == '.' then "."
    else
      var e := Ext(p[..|p| - 1]);
      if e == [] then [] else e + [p[|p| - 1]]
  }

  /** `strings.TrimSuffix(filepath.Base(p), filepath.Ext(p))`: the file name without its extension. */
  function Stem(p: string): string {
    TrimSuffix(Base(p), Ext(p))
  }

  /** The base name without its extension holds no separator, unless it is the root itself. */
  lemma StemIsFileName(path: string)
    ensures Stem(path) == "/" || Separator !in Stem(path)
  {
    var b := Base(path);
    var e := Ext(path);
    var name := Stem(path);
    if HasSuffix(b, e) {
      assert b == name + e;
      if Separator in name {
        var k :| 0 <= k < |name| && name[k] == Separator;
        assert b[k] == Separator;
      }
    }
  }

  /** `filepath.Join`: the non-empty elements joined with separators, cleaned; "" if all are empty. */
  function JoinPath(elems: seq<string>): (r: string)
    ensures (forall i :: 0 <= i < |elems| ==> elems[i] == "") <==> r == ""
  {
    if elems == [] then ""
    else if elems[0] != "" then Clean(Join(elems, "/"))
    else JoinPath(elems[1..])
  }

  function Join2(a: string, b: string): string {
    JoinPath([a, b])
  }

  function Join3(a: string, b: string, c: string): string {
    JoinPath([a, b, c])
  }

  // ---- Length bounds for Clean, used to show that walking up with Dir terminates ----

  /** The length of the parts joined with one-character separators, plus one. */
  function Weight(parts: seq<string>): nat {
    if parts == [] then 0 else |parts[0]| + 1 + Weight(parts[1..])
  }

  function Empties(parts: seq<string>): nat {
    if parts == [] then 0 else (if parts[0] == "" then 1 else 0) + Empties(parts[1..])
  }

  lemma {:induction false} WeightAppend(a: seq<string>, b: seq<string>)
    ensures Weight(a + b) == Weight(a) + Weight(b)
    decreases |a|
  {
    if a != [] {
      assert (a + b)[1..] == a[1..] + b;
      WeightAppend(a[1..], b);
    } else {
      assert a + b == b;
    }
  }

  lemma {:induction false} JoinLength(parts: seq<string>, sep: char)
    requires parts != []
    ensures |Join(parts, [sep])| + 1 == Weight(parts)
    decreases |parts|
  {
    if |parts| > 1 {
      JoinLength(parts[1..], sep);
    }
  }

  lemma {:induction false} StepWeight(rooted: bool, stack: seq<string>, e: string)
    ensures Weight(Step(rooted, stack, e)) + (if e == "" then 1 else 0) <= Weight(stack) + |e| + 1
  {
    if e == "" || e == "." {
    } else if e == ".." {
      if stack != [] && stack[|stack| - 1] != ".." {
        assert stack == stack[..|stack| - 1] + [stack[|stack| - 1]];
        WeightAppend(stack[..|stack| - 1], [stack[|stack| - 1]]);
      } else if !rooted {
        WeightAppend(stack, [".."]);
      }
    } else {
      WeightAppend(stack, [e]);
    }
  }

  /** The walk never produces more text than it consumes, and every empty element saves one character. */
  lemma {:induction false} NormalizeWeight(rooted: bool, parts: seq<string>, stack: seq<string>)
    ensures Weight(Normalize(rooted, parts, stack)) + Empties(parts) <= Weight(stack) + Weight(parts)
    decreases |parts|
  {
    if parts != [] {
      StepWeight(rooted, stack, parts[0]);
      NormalizeWeight(rooted, parts[1..], Step(rooted, stack, parts[0]));
    }
  }

  lemma {:induction false} SplitFirst(s: string, sep: char)
    requires s != [] && s[0] == sep
    ensures Split(s, sep)[0] == ""
  {
  }

  lemma {:induction false} SplitLast(s: string, sep: char)
    requires s != [] && s[|s| - 1] == sep
    ensures |Split(s, sep)| >= 2 && Split(s, sep)[|Split(s, sep)| - 1] == ""
    decreases |s|
  {
    IndexOfCharFound(s, sep, |s| - 1);
    var i := IndexOfChar(s, sep);
    var rest := s[i + 1..];
    RestEndsWith(s, sep, i);
    if rest != [] {
      SplitLast(rest, sep);
    } else {
      SplitEmpty(sep);
    }
    SplitLastFrom(s, sep, i, Split(rest, sep));
  }

  /** What follows a position of a string ending in `sep` is empty or ends in `sep` too. */
  lemma RestEndsWith(s: string, sep: char, i: int)
    requires 0 <= i < |s| && s[|s| - 1] == sep
    ensures s[i + 1..] == [] || s[i + 1..][|s[i + 1..]| - 1] == sep
  {
  }

  /** A split whose rest after the first separator ends in an empty piece ends in one too. */
  lemma SplitLastFrom(s: string, sep: char, i: int, tail: seq<string>)
    requires 0 <= i == IndexOfChar(s, sep) && tail == Split(s[i + 1..], sep)
    requires tail != [] && tail[|tail| - 1] == ""
    ensures |Split(s, sep)| >= 2 && Split(s, sep)[|Split(s, sep)| - 1] == ""
  {
    SplitAt(s, sep, i);
    var whole := Split(s, sep);
    assert whole == [s[..i]] + tail;
    assert |whole| == 1 + |tail|;
  }

  lemma {:induction false} EmptiesEnds(parts: seq<string>)
    requires |parts| >= 2 && parts[0] == "" && parts[|parts| - 1] == ""
    ensures Empties(parts) >= 2
  {
    EmptiesAtLeastOne(parts[1..]);
  }

  lemma {:induction false} EmptiesAtLeastOne(parts: seq<string>)
    requires parts != [] && parts[|parts| - 1] == ""
    ensures Empties(parts) >= 1
    decreases |parts|
  {
    if |parts| > 1 {
      EmptiesAtLeastOne(parts[1..]);
    }
  }

  /** The names `Clean` keeps weigh no more than the path, less one per empty element. */
  lemma NamesWeight(p: string)
    ensures var parts := Split(p, Separator);
      Weight(Normalize(p != [] && p[0] == Separator, parts, [])) + Empties(parts) <= |p| + 1
  {
    var parts := Split(p, Separator);
    JoinSplit(p, Separator);
    JoinLength(parts, Separator);
    NormalizeWeight(p != [] && p[0] == Separator, parts, []);
  }

  /** A leading separator makes one empty element, a trailing one another. */
  lemma SeparatorEmpties(p: string)
    requires p != []
    ensures p[0] == Separator ==> Empties(Split(p, Separator)) >= 1
    ensures p[|p| - 1] == Separator ==> Empties(Split(p, Separator)) >= 1
    ensures p[0] == Separator && p[|p| - 1] == Separator ==> Empties(Split(p, Separator)) >= 2
  {
    if p[0] == Separator {
      SplitFirst(p, Separator);
    }
    if p[|p| - 1] == Separator {
      SplitLast(p, Separator);
    }
    EmptiesOfEnds(Split(p, Separator));
  }

  /** An empty first element counts once, an empty last one too, and both together twice. */
  lemma EmptiesOfEnds(parts: seq<string>)
    requires parts != []
    ensures parts[0] == "" ==> Empties(parts) >= 1
    ensures parts[|parts| - 1] == "" ==> Empties(parts) >= 1
    ensures |parts| >= 2 && parts[0] == "" && parts[|parts| - 1] == "" ==> Empties(parts) >= 2
  {
    if parts[|parts| - 1] == "" {
      EmptiesAtLeastOne(parts);
      if |parts| >= 2 && parts[0] == "" {
        EmptiesEnds(parts);
      }
    }
  }

  /** Cleaning never lengthens a non-empty path, and strictly shortens one with a trailing separator. */
  lemma {:induction false} CleanLength(p: string)
    requires p != []
    ensures |Clean(p)| <= |p|
    ensures |p| >= 2 && p[|p| - 1] == Separator ==> |Clean(p)| < |p|
  {
    var rooted := p[0] == Separator;
    var names := Normalize(rooted, Split(p, Separator), []);
    NamesWeight(p);
    SeparatorEmpties(p);
    if names != [] {
      JoinLength(names, '/');
    }
  }

  lemma {:induction false} CleanRoot()
    ensures Clean("/") == "/"
  {
    assert IndexOfChar("/", Separator) == 0;
    assert IndexOfChar("", Separator) == -1;
    assert Split("", Separator) == [""];
    assert Split("/", Separator) == ["", ""];
    assert Normalize(true, ["", ""], []) == [];
  }

  /**
   * Going to the parent either stays put (the root, or "."), reaches ".", or
   * yields a strictly shorter path.
   */
  lemma {:induction false} DirProgress(p: string)
    ensures Dir(p) == p || Dir(p) == "." || |Dir(p)| < |p|
  {
    var i := LastIndexOfChar(p, Separator);
    var x := p[..i + 1];
    if i >= 0 {
      CleanLength(x);
      if i + 1 == |p| && |p| == 1 {
        assert x == p == "/";
        CleanRoot();
      }
    }
  }
}
