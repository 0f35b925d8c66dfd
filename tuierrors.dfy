/**
 * The one-line messages the text UI shows for an error: chosen by the kind
 * of the first `OpError` in the error's chain, and otherwise by looking at
 * the error's text for a YAML problem or a missing variable.
 */
module ErrorDisplay {
  import opened Common
  import opened Text
  import opened Errors
  import Paths
  import Resolver
  import WorkspaceFinder

  // ---- Substrings ----

  /** `strings.Contains` holds exactly when the substring occurs somewhere. */
  lemma ContainsMeans(s: string, sub: string)
    ensures Contains(s, sub) <==> exists i :: OccursAt(s, sub, i)
  {
    if !Contains(s, sub) {
      assert forall j :: 0 <= j ==> !OccursAt(s, sub, j);
    }
  }

  /** Every character of a contained substring occurs in the string. */
  lemma ContainsChars(s: string, sub: string, k: nat)
    requires Contains(s, sub) && k < |sub|
    ensures sub[k] in s
  {
    var i := IndexOf(s, sub);
    assert s[i..i + |sub|][k] == s[i + k];
  }

  /** One occurrence at a known place. */
  lemma Occurs(s: string, sub: string, i: nat)
    requires i + |sub| <= |s| && s[i..i + |sub|] == sub
    ensures Contains(s, sub)
  {
    ContainsAt(s, sub, i);
  }

  // ---- looksLikeYAMLProblem ----

  const YamlMarkers: seq<string> := ["yaml:", "did not find expected", "cannot unmarshal"]

  /** `looksLikeYAMLProblem`. */
  predicate LooksLikeYamlProblem(s: string) {
    var ls := ToLower(s);
    Contains(ls, "yaml:") || Contains(ls, "did not find expected") || Contains(ls, "cannot unmarshal")
  }

  /** The text looks like a YAML problem exactly when, lower-cased, one of the three markers occurs in it. */
  lemma LooksLikeYamlProblemMeans(s: string)
    ensures LooksLikeYamlProblem(s) <==> exists m, i :: m in YamlMarkers && OccursAt(ToLower(s), m, i)
  {
    var ls := ToLower(s);
    ContainsMeans(ls, "yaml:");
    ContainsMeans(ls, "did not find expected");
    ContainsMeans(ls, "cannot unmarshal");
    if exists m, i :: m in YamlMarkers && OccursAt(ls, m, i) {
      var m, i :| m in YamlMarkers && OccursAt(ls, m, i);
      assert m == YamlMarkers[0] || m == YamlMarkers[1] || m == YamlMarkers[2];
    }
  }

  // ---- extractLine: the first match of `(?i)\bline\s+(\d+)\b` ----

  /** `\w` of Go's regular expressions. */
  predicate WordChar(c: char) {
    'a' <= c <= 'z' || 'A' <= c <= 'Z' || '0' <= c <= '9' || c == '_'
  }

  /** `\s` of Go's regular expressions: `[\t\n\f\r ]`. */
  predicate RegexSpace(c: char) {
    c == ' ' || c == '\t' || c == '\n' || c == '\U{C}' || c == '\r'
  }

  predicate IsDigit(c: char) {
    '0' <= c <= '9'
  }

  /** The end of the run of `\s` characters starting at `i`. */
  function SpacesEnd(s: string, i: nat): (e: nat)
    requires i <= |s|
    ensures i <= e <= |s| && (e == |s| || !RegexSpace(s[e]))
    ensures forall k :: i <= k < e ==> RegexSpace(s[k])
    decreases |s| - i
  {
    if i < |s| && RegexSpace(s[i]) then SpacesEnd(s, i + 1) else i
  }

  /** The end of the run of digits starting at `i`. */
  function DigitsEnd(s: string, i: nat): (e: nat)
    requires i <= |s|
    ensures i <= e <= |s| && (e == |s| || !IsDigit(s[e]))
    ensures forall k :: i <= k < e ==> IsDigit(s[k])
    decreases |s| - i
  {
    if i < |s| && IsDigit(s[i]) then DigitsEnd(s, i + 1) else i
  }

  /**
   * The digits captured by a match starting at `i`: a word boundary, `line`
   * in any case, one or more spaces, then digits ending at a word boundary.
   * Spaces cannot give way to digits and a shorter run of digits would end
   * before a digit, so a match at `i`, if any, is this one.
   */
  function LineAt(s: string, i: nat): (r: Option<string>)
    requires i <= |s|
    ensures r.Some? ==> r.value != [] && forall k :: 0 <= k < |r.value| ==> IsDigit(r.value[k])
  {
    if i + 4 <= |s| && (i == 0 || !WordChar(s[i - 1])) && ToLower(s[i..i + 4]) == "line" then
      var k := SpacesEnd(s, i + 4);
      var e := DigitsEnd(s, k);
      if k == i + 4 || e == k || (e < |s| && WordChar(s[e])) then None
      else Some(s[k..e])
    else None
  }

  /** The leftmost match at or after `i`. */
  function LineFrom(s: string, i: nat): string
    requires i <= |s|
    decreases |s| - i
  {
    match LineAt(s, i)
    case Some(d) => d
    case None => if i == |s| then "" else LineFrom(s, i + 1)
  }

  /** `extractLine`: the line number of the leftmost match, or "". */
  function ExtractLine(s: string): string {
    LineFrom(s, 0)
  }

  /** There is no match from `i` exactly when the result is empty. */
  lemma {:induction false} LineFromNone(s: string, i: nat)
    requires i <= |s|
    ensures LineFrom(s, i) == "" <==> forall j :: i <= j <= |s| ==> LineAt(s, j).None?
    decreases |s| - i
  {
    if LineAt(s, i).None? && i < |s| {
      LineFromNone(s, i + 1);
    }
  }

  /** The position of the leftmost match at or after `i`, or the end when there is none. */
  function MatchIndex(s: string, i: nat): (j: nat)
    requires i <= |s|
    ensures i <= j <= |s|
    decreases |s| - i
  {
    if i == |s| || LineAt(s, i).Some? then i else MatchIndex(s, i + 1)
  }

  /** A non-empty result is the capture of the leftmost match from `i`. */
  lemma {:induction false} LineFromFound(s: string, i: nat)
    requires i <= |s| && LineFrom(s, i) != ""
    ensures LineAt(s, MatchIndex(s, i)) == Some(LineFrom(s, i))
    ensures forall k :: i <= k < MatchIndex(s, i) ==> LineAt(s, k).None?
    decreases |s| - i
  {
    if LineAt(s, i).None? {
      LineFromStep(s, i);
      LineFromFound(s, i + 1);
    }
  }

  /** Where there is no match at `i`, both the result and the match position are those from `i + 1`. */
  lemma LineFromStep(s: string, i: nat)
    requires i <= |s| && LineFrom(s, i) != "" && LineAt(s, i).None?
    ensures i < |s| && LineFrom(s, i) == LineFrom(s, i + 1) && MatchIndex(s, i) == MatchIndex(s, i + 1)
  {
  }

  /** A line number is the digits of the leftmost match of the pattern; "" means no match. */
  lemma ExtractLineMeans(s: string)
    ensures ExtractLine(s) == "" <==> forall j :: 0 <= j <= |s| ==> LineAt(s, j).None?
    ensures ExtractLine(s) != "" ==>
      (forall k :: 0 <= k < |ExtractLine(s)| ==> IsDigit(ExtractLine(s)[k]))
      && exists j :: (0 <= j <= |s| && LineAt(s, j) == Some(ExtractLine(s))
                      && forall k :: 0 <= k < j ==> LineAt(s, k).None?)
  {
    LineFromNone(s, 0);
    if ExtractLine(s) != "" {
      LineFromFound(s, 0);
      var j := MatchIndex(s, 0);
      assert 0 <= j <= |s| && LineAt(s, j) == Some(ExtractLine(s));
    }
  }

  // ---- extractMissingVarName ----

  /** The characters trimmed around the name. */
  const NameCut: set<char> := {' ', '.', ',', ':', ';', '"', '\''}

  const ColonMarker := "missing variable:"
  const SpaceMarker := "missing variable "

  /** The text after the last occurrence of `marker` in the lower-cased text, if any. */
  function After(s: string, marker: string): Option<string> {
    var i := LastIndexOf(ToLower(s), marker);
    if i < 0 then None else Some(s[i + |marker|..])
  }

  /** What follows the marker, trimmed of white space and then of the cut set. */
  function Cleaned(rest: string): string {
    TrimSet(TrimSpace(rest), NameCut)
  }

  /** The text the name is taken from: after the colon marker, failing that after the spaced one. */
  function Remainder(s: string): Option<string> {
    match After(s, ColonMarker)
    case Some(rest) => Some(Cleaned(rest))
    case None =>
      match After(s, SpaceMarker)
      case Some(rest) => Some(Cleaned(rest))
      case None => None
  }

  /** `strings.Fields(part)[0]` has something to index: there is no marker, or a word follows it. */
  predicate NameFollows(s: string) {
    Remainder(s).Some? ==> !IsBlank(Remainder(s).value)
  }

  /** `extractMissingVarName` as written: it indexes the first field without checking that there is one. */
  function ExtractMissingVarName(s: string): (r: string)
    requires NameFollows(s)
    ensures Remainder(s).Some? ==> r == TrimSet(FirstField(Remainder(s).value), NameCut)
    ensures Remainder(s).None? ==> r == ""
  {
    match Remainder(s)
    case None => ""
    case Some(part) => TrimSet(FirstField(part), NameCut)
  }

  /** A word with no white space inside and no cut character at either end. */
  predicate IsName(r: string) {
    r != [] && r[0] !in NameCut && r[|r| - 1] !in NameCut && forall k :: 0 <= k < |r| ==> !IsSpace(r[k])
  }

  /** Trimming a word of cut characters keeps it a word, or empties it. */
  lemma TrimWord(f: string)
    requires forall k :: 0 <= k < |f| ==> !IsSpace(f[k])
    ensures TrimSet(f, NameCut) == [] || IsName(TrimSet(f, NameCut))
  {
    TrimWordBy(f, NameCut, SpaceChars);
  }

  lemma TrimWordBy(f: string, cut: set<char>, avoid: set<char>)
    requires forall k :: 0 <= k < |f| ==> f[k] !in avoid
    ensures var r := TrimSet(f, cut);
      r == [] || (r[0] !in cut && r[|r| - 1] !in cut && forall k :: 0 <= k < |r| ==> r[k] !in avoid)
  {
    var l := TrimLeftSet(f, cut);
    AvoidsSuffix(f, l, avoid);
    var r := TrimRightSet(l, cut);
    AvoidsPrefix(l, r, avoid);
    if r != [] {
      assert r[0] == l[0];
    }
  }

  /** A suffix of a string that avoids some characters avoids them too. */
  lemma AvoidsSuffix(f: string, l: string, avoid: set<char>)
    requires |l| <= |f| && l == f[|f| - |l|..]
    requires forall k :: 0 <= k < |f| ==> f[k] !in avoid
    ensures forall k :: 0 <= k < |l| ==> l[k] !in avoid
  {
    forall k | 0 <= k < |l|
      ensures l[k] !in avoid
    {
      assert l[k] == f[|f| - |l| + k];
    }
  }

  /** A prefix of a string that avoids some characters avoids them too. */
  lemma AvoidsPrefix(l: string, r: string, avoid: set<char>)
    requires |r| <= |l| && r == l[..|r|]
    requires forall k :: 0 <= k < |l| ==> l[k] !in avoid
    ensures forall k :: 0 <= k < |r| ==> r[k] !in avoid
  {
    forall k | 0 <= k < |r|
      ensures r[k] !in avoid
    {
      assert r[k] == l[k];
    }
  }

  /**
   * The name as intended: the first word after the last marker, trimmed of
   * ` .,:;"'`, or "" when there is no marker or nothing after it.
   */
  function MissingVarName(s: string): (r: string)
    ensures r == [] || IsName(r)
    ensures Remainder(s).None? ==> r == []
  {
    match Remainder(s)
    case None => ""
    case Some(part) =>
      if IsBlank(part) then ""
      else
        TrimWord(FirstField(part));
        TrimSet(FirstField(part), NameCut)
  }

  /** Where the function as written can run, it gives the intended name. */
  lemma MissingVarNameAsWritten(s: string)
    requires NameFollows(s)
    ensures ExtractMissingVarName(s) == MissingVarName(s)
    ensures ExtractMissingVarName(s) == [] || IsName(ExtractMissingVarName(s))
  {
  }

  // ---- userMessage ----

  const Unexpected := "Unexpected error (see logs)"

  /** A not-found `OpError`, by the loader named in its operation. */
  function NotFoundMessage(op: string): string {
    if Contains(op, "yamlcollection") then "Collection not found"
    else if Contains(op, "yamlenv") then "Environment not found"
    else if Contains(op, "workspacefinder.findroot") then "Workspace not found"
    else "Not found"
  }

  /** A missing variable, named when a name can be found in the text. */
  function MissingVarMessage(msg: string): (r: string)
    ensures r == "Missing variable" || r == "Missing variable " + MissingVarName(msg)
  {
    var v := MissingVarName(msg);
    if v == "" then "Missing variable" else "Missing variable " + v
  }

  /** An invalid-config `OpError`: the file's base name (or `config`), with the line when the text gives one. */
  function InvalidConfigMessage(path: string, msg: string): string {
    var base := if TrimSpace(path) != "" then Paths.Base(path) else "config";
    var line := ExtractLine(msg);
    if line != "" then "Invalid YAML at " + base + " line " + line
    else if LooksLikeYamlProblem(msg) then "Invalid YAML at " + base
    else "Invalid config"
  }

  /** `userMessage`, with the missing-variable name taken as intended (see `MissingVarName`). */
  function UserMessage(err: Option<Error>): (r: string)
    ensures r == "" <==> err.None?
  {
    if err.None? then ""
    else
      var e := err.value;
      var msg := Message(e);
      match FirstOpError(e)
      case Some(oe) =>
        (match oe.kind
         case NotFound => NotFoundMessage(oe.op)
         case MissingVar => MissingVarMessage(msg)
         case InvalidConfig => InvalidConfigMessage(oe.path, msg)
         case _ => Unexpected)
      case None =>
        if LooksLikeYamlProblem(msg) then
          var line := ExtractLine(msg);
          if line != "" then "Invalid YAML line " + line else "Invalid YAML"
        else if Contains(ToLower(msg), "missing variable") then MissingVarMessage(msg)
        else Unexpected
  }

  /** The errors for which `userMessage` as written calls `extractMissingVarName`. */
  predicate ReachesNameExtraction(err: Option<Error>) {
    err.Some? &&
    match FirstOpError(err.value)
    case Some(oe) => oe.kind == MissingVar
    case None => !LooksLikeYamlProblem(Message(err.value)) && Contains(ToLower(Message(err.value)), "missing variable")
  }

  /**
   * The errors the text UI shows with their own words: the first `OpError`
   * decides; a not-found error names the loader, an invalid-config error the
   * file and line, a missing variable the name; other kinds are unexpected.
   */
  lemma UserMessageByKind(e: Error)
    ensures FirstOpError(e).Some? && FirstOpError(e).value.kind == NotFound ==>
      UserMessage(Some(e)) in {"Collection not found", "Environment not found", "Workspace not found", "Not found"}
    ensures FirstOpError(e).Some? && FirstOpError(e).value.kind == MissingVar ==>
      UserMessage(Some(e)) == "Missing variable" || UserMessage(Some(e)) == "Missing variable " + MissingVarName(Message(e))
    ensures FirstOpError(e).Some? && FirstOpError(e).value.kind in {InvalidRequest, Execution} ==>
      UserMessage(Some(e)) == Unexpected
    ensures FirstOpError(e).None? && !LooksLikeYamlProblem(Message(e)) && !Contains(ToLower(Message(e)), "missing variable") ==>
      UserMessage(Some(e)) == Unexpected
    ensures FirstOpError(e).None? && LooksLikeYamlProblem(Message(e)) ==>
      UserMessage(Some(e)) == (if ExtractLine(Message(e)) != "" then "Invalid YAML line " + ExtractLine(Message(e)) else "Invalid YAML")
  {
  }

  /** An invalid-config error names the file (or `config`), and the line when the text has one. */
  lemma InvalidConfigShown(op: string, path: string, cause: Option<Error>)
    ensures var e := OpError(op, InvalidConfig, path, cause);
      var base := if IsBlank(path) then "config" else Paths.Base(path);
      var line := ExtractLine(Message(e));
      UserMessage(Some(e)) ==
        if line != "" then "Invalid YAML at " + base + " line " + line
        else if LooksLikeYamlProblem(Message(e)) then "Invalid YAML at " + base
        else "Invalid config"
  {
    assert FirstOpError(OpError(op, InvalidConfig, path, cause)) == Some(OpError(op, InvalidConfig, path, cause));
  }

  // ---- The errors of the loaders, as shown ----

  /** A character absent from a string rules out every substring holding it. */
  lemma NotContains(s: string, sub: string, k: nat)
    requires k < |sub| && sub[k] !in s
    ensures !Contains(s, sub)
  {
    if Contains(s, sub) {
      ContainsChars(s, sub, k);
    }
  }

  /** A not-found `OpError`, wrapped or not, is shown by its operation. */
  lemma NotFoundByOp(prefix: string, op: string, path: string, cause: Option<Error>)
    ensures UserMessage(Some(OpError(op, NotFound, path, cause))) == NotFoundMessage(op)
    ensures UserMessage(Some(Wrapped(prefix, OpError(op, NotFound, path, cause)))) == NotFoundMessage(op)
  {
    var e := OpError(op, NotFound, path, cause);
    assert FirstOpError(e) == Some(e);
    assert FirstOpError(Wrapped(prefix, e)) == Some(e);
  }

  /** The collection loader's operation names it. */
  lemma CollectionOp()
    ensures NotFoundMessage("yamlcollection.load") == "Collection not found"
  {
    Occurs("yamlcollection.load", "yamlcollection", 0);
  }

  /** The environment loader's operation names it. */
  lemma EnvironmentOp()
    ensures NotFoundMessage("yamlenv.load") == "Environment not found"
  {
    NotContains("yamlenv.load", "yamlcollection", 4);
    Occurs("yamlenv.load", "yamlenv", 0);
  }

  /** The finder's operation names it. */
  lemma FinderOp()
    ensures NotFoundMessage("workspacefinder.findroot") == "Workspace not found"
  {
    FinderOpNoY();
    Occurs("workspacefinder.findroot", "workspacefinder.findroot", 0);
  }

  lemma FinderOpNoY()
    ensures !Contains("workspacefinder.findroot", "yamlcollection")
    ensures !Contains("workspacefinder.findroot", "yamlenv")
  {
    assert 'y' !in "workspacefinder.findroot";
    NotContains("workspacefinder.findroot", "yamlcollection", 0);
    NotContains("workspacefinder.findroot", "yamlenv", 0);
  }

  /** The not-found errors of the collection loader, the environment loader and the finder, however wrapped. */
  lemma NotFoundShown(prefix: string, path: string, cause: Option<Error>)
    ensures UserMessage(Some(OpError("yamlcollection.load", NotFound, path, cause))) == "Collection not found"
    ensures UserMessage(Some(OpError("yamlenv.load", NotFound, path, cause))) == "Environment not found"
    ensures UserMessage(Some(Wrapped(prefix, WorkspaceFinder.NoRoot))) == "Workspace not found"
  {
    CollectionOp();
    EnvironmentOp();
    FinderOp();
    NotFoundByOp(prefix, "yamlcollection.load", path, cause);
    NotFoundByOp(prefix, "yamlenv.load", path, cause);
    NotFoundByOp(prefix, "workspacefinder.findroot", "", Some(ErrNotFound));
  }

  // ---- The resolver's missing variable, as shown ----

  /** Lower-casing distributes over concatenation. */
  lemma LowerAppend(a: string, b: string)
    ensures ToLower(a + b) == ToLower(a) + ToLower(b)
  {
    assert forall i :: 0 <= i < |a + b| ==> ToLower(a + b)[i] == (ToLower(a) + ToLower(b))[i];
  }

  /** The marker is its own lower-case form. */
  lemma LowerMarker()
    ensures ToLower(ColonMarker) == ColonMarker
  {
  }

  /** Lower-casing a word keeps it free of spaces. */
  lemma LowerWord(name: string)
    requires forall k :: 0 <= k < |name| ==> !IsSpace(name[k])
    ensures forall k :: 0 <= k < |ToLower(name)| ==> ToLower(name)[k] != ' '
  {
  }

  /** In `<marker> <word>`, the marker occurs only at the front. */
  lemma {:induction false} MarkerOnlyFirst(t: string, w: string, j: nat)
    requires t == ColonMarker + " " + w
    requires forall k :: 0 <= k < |w| ==> w[k] != ' '
    requires 0 < j
    ensures !OccursAt(t, ColonMarker, j)
  {
    if j + 17 <= |t| {
      assert t[j..j + 17][7] == t[j + 7];
      if j + 7 < 17 {
        assert t[j + 7] == ColonMarker[j + 7];
      } else if j == 10 {
        assert t[j..j + 17][0] == t[10];
      } else {
        assert t[j + 7] == w[j + 7 - 18];
      }
    }
  }

  /** The text around the marker, lower-cased. */
  lemma LowerAroundMarker(pre: string, name: string)
    ensures ToLower(pre + ColonMarker + " " + name) == ToLower(pre) + (ColonMarker + " " + ToLower(name))
  {
    LowerAppend(pre, ColonMarker + " " + name);
    LowerAppend(ColonMarker, " " + name);
    LowerAppend(" ", name);
    LowerMarker();
    assert ToLower(" ") == " ";
  }

  /** An occurrence past a prefix is an occurrence in the rest. */
  lemma OccursPast(a: string, t: string, m: string, j: int)
    requires OccursAt(a + t, m, j) && j >= |a|
    ensures OccursAt(t, m, j - |a|)
  {
    assert (a + t)[j..j + |m|] == t[j - |a|..j - |a| + |m|];
  }

  /** After the marker, a single space and a word: the last marker is this one. */
  lemma LastMarker(pre: string, name: string)
    requires forall k :: 0 <= k < |name| ==> !IsSpace(name[k])
    ensures LastIndexOf(ToLower(pre + ColonMarker + " " + name), ColonMarker) == |pre|
  {
    var lp := ToLower(pre);
    var t := ColonMarker + " " + ToLower(name);
    LowerAroundMarker(pre, name);
    LowerWord(name);
    assert (lp + t)[|lp|..|lp| + 17] == t[..17] == ColonMarker;
    assert OccursAt(lp + t, ColonMarker, |pre|);
    forall j | j > |pre|
      ensures !OccursAt(lp + t, ColonMarker, j)
    {
      if OccursAt(lp + t, ColonMarker, j) {
        OccursPast(lp, t, ColonMarker, j);
        MarkerOnlyFirst(t, ToLower(name), j - |pre|);
      }
    }
  }

  /** A word is its own first field. */
  lemma {:induction false} TakeWord(w: string)
    requires forall k :: 0 <= k < |w| ==> !IsSpace(w[k])
    ensures TakeUntilSpace(w) == w
    decreases |w|
  {
    if w != [] {
      TakeWord(w[1..]);
      assert [w[0]] + w[1..] == w;
    }
  }

  /** What follows the marker in `<pre>missing variable: <name>` is exactly the name. */
  lemma NameAfterMarker(pre: string, name: string)
    requires IsName(name)
    ensures MissingVarName(pre + ColonMarker + " " + name) == name
  {
    RemainderAfterMarker(pre, name);
    NameCleaned(name);
  }

  /** A word after a single space is cleaned to itself, and is its own first field. */
  lemma NameCleaned(name: string)
    requires IsName(name)
    ensures Cleaned(" " + name) == name && !IsBlank(name) && FirstField(name) == name
  {
    assert (" " + name)[1..] == name;
    assert TrimLeftSpace(" " + name) == TrimLeftSpace(name);
    TrimSpaceOfNonBlankEdges(name);
    assert TrimLeftSet(name, NameCut) == name;
    assert TrimRightSet(name, NameCut) == name;
    assert !IsBlank(name);
    assert TrimLeftSpace(name) == name;
    TakeWord(name);
  }

  /** After the last marker, a single space and a word: the remainder is what follows the marker. */
  lemma RemainderAfterMarker(pre: string, w: string)
    requires forall k :: 0 <= k < |w| ==> !IsSpace(w[k])
    ensures Remainder(pre + ColonMarker + " " + w) == Some(Cleaned(" " + w))
  {
    var s := pre + ColonMarker + " " + w;
    LastMarker(pre, w);
    assert s[|pre| + |ColonMarker|..] == " " + w;
  }

  /** The text of the resolver's error for an undefined name. */
  lemma ResolverMessage(name: string)
    ensures Message(Resolver.MissingVariable(name)) == "vars.resolve: missing_variable: " + ColonMarker + " " + name
  {
  }

  /** The resolver's error for an undefined name is shown as `Missing variable <name>`. */
  lemma ResolverMissingShown(name: string)
    requires IsName(name)
    ensures UserMessage(Some(Resolver.MissingVariable(name))) == "Missing variable " + name
  {
    var e := Resolver.MissingVariable(name);
    ResolverMessage(name);
    NameAfterMarker("vars.resolve: missing_variable: ", name);
    assert FirstOpError(e) == Some(e);
  }

  /**
   * The case the function as written does not survive: an error whose text
   * is `missing variable:` reaches `extractMissingVarName` with nothing after
   * the marker, where `strings.Fields(part)[0]` indexes an empty slice.
   */
  lemma NameExtractionPanics()
    ensures ReachesNameExtraction(Some(Leaf(ColonMarker)))
    ensures !NameFollows(ColonMarker)
    ensures UserMessage(Some(Leaf(ColonMarker))) == "Missing variable"
  {
    var s := ColonMarker;
    LowerMarker();
    MarkerNotYaml();
    Occurs(s, "missing variable", 0);
    MarkerAlone();
  }

  /**
   * The realistic trigger: a placeholder `{{ . }}` with no variable `.`
   * makes the resolver report `missing variable: .`; the cut set then trims
   * the `.` away and `strings.Fields(part)[0]` indexes an empty slice.
   */
  lemma ResolverDotPanics()
    ensures ReachesNameExtraction(Some(Resolver.MissingVariable(".")))
    ensures !NameFollows(Message(Resolver.MissingVariable(".")))
    ensures UserMessage(Some(Resolver.MissingVariable("."))) == "Missing variable"
  {
    DotCleaned();
    ResolverNothingAfterMarker(".");
  }

  /** A resolver error whose name the cut set trims away leaves nothing to index. */
  lemma ResolverNothingAfterMarker(w: string)
    requires forall k :: 0 <= k < |w| ==> !IsSpace(w[k])
    requires Cleaned(" " + w) == ""
    ensures ReachesNameExtraction(Some(Resolver.MissingVariable(w)))
    ensures !NameFollows(Message(Resolver.MissingVariable(w)))
    ensures UserMessage(Some(Resolver.MissingVariable(w))) == "Missing variable"
  {
    var e := Resolver.MissingVariable(w);
    ResolverMessage(w);
    RemainderAfterMarker("vars.resolve: missing_variable: ", w);
    assert FirstOpError(e) == Some(e);
  }

  /** A lone `.` after the marker is cut away entirely. */
  lemma DotCleaned()
    ensures Cleaned(" " + ".") == ""
    ensures forall k :: 0 <= k < |"."| ==> !IsSpace("."[k])
  {
    var d := ".";
    assert " " + d == " .";
    assert " ."[1..] == d && d[1..] == "";
    assert IsSpace(' ') && !IsSpace('.');
    assert TrimLeftSpace(" .") == TrimLeftSpace(d) == d;
    assert TrimRightSpace(d) == d;
    assert TrimSpace(" .") == d;
    assert TrimLeftSet(d, NameCut) == TrimLeftSet("", NameCut) == "";
  }

  /** The marker alone is no YAML problem. */
  lemma MarkerNotYaml()
    ensures !LooksLikeYamlProblem(ColonMarker)
  {
    LowerMarker();
    assert 'y' !in ColonMarker && 'd' !in ColonMarker && 'c' !in ColonMarker;
    NotContains(ColonMarker, "yaml:", 0);
    NotContains(ColonMarker, "did not find expected", 0);
    NotContains(ColonMarker, "cannot unmarshal", 0);
  }

  /** The marker alone leaves an empty remainder. */
  lemma MarkerAlone()
    ensures Remainder(ColonMarker) == Some("")
  {
    LowerMarker();
    assert OccursAt(ColonMarker, ColonMarker, 0);
    assert LastIndexOf(ColonMarker, ColonMarker) == 0;
    assert ColonMarker[|ColonMarker|..] == "";
    assert Cleaned("") == "";
  }
}
