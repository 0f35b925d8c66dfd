/**
 * How the command line turns its `--workspace`, `--collection` and `--env`
 * arguments into a workspace root, a collection file and an environment
 * argument for the loader. The working directory, `filepath.Abs`, `os.Stat`
 * and the collection listing are functions passed in.
 */
module WorkspaceArgs {
  import opened Common
  import opened Text
  import opened Errors
  import opened Domain
  import Paths
  import WorkspaceFinder
  import YamlEnv

  // ---- looksLikePath and hasYAMLExt ----

  /** `strings.Contains(s, string(c))` holds exactly when `c` occurs in `s`. */
  lemma ContainsChar(s: string, c: char)
    ensures Contains(s, [c]) <==> c in s
  {
    var r := IndexFrom(s, [c], 0);
    if r >= 0 {
      assert s[r] == s[r..r + 1][0];
    }
    if c in s {
      var k :| 0 <= k < |s| && s[k] == c;
      assert s[k..k + 1] == [c];
      assert OccursAt(s, [c], k);
    }
  }

  /** `looksLikePath`: the argument holds '/' or the separator, which on Unix are the same. */
  function LooksLikePath(s: string): (b: bool)
    ensures b <==> Paths.Separator in s
  {
    ContainsChar(s, '/');
    Contains(s, "/") || Contains(s, [Paths.Separator])
  }

  /** `hasYAMLExt`: the extension, lower-cased, is `.yaml` or `.yml`. */
  predicate HasYamlExt(s: string) {
    var ext := ToLower(Paths.Ext(s));
    ext == ".yaml" || ext == ".yml"
  }

  /** After the last '.' of the final element comes the extension. */
  lemma {:induction false} ExtAfterDot(t: string, u: string)
    requires '.' !in u && Paths.Separator !in u
    ensures Paths.Ext(t + "." + u) == "." + u
    decreases |u|
  {
    var p := t + "." + u;
    if u != [] {
      var v := u[..|u| - 1];
      ExtAfterDot(t, v);
      assert p[..|p| - 1] == t + "." + v;
      assert p[|p| - 1] == u[|u| - 1];
      assert "." + v + [u[|u| - 1]] == "." + u;
    }
  }

  /** Lower-casing a string lower-cases its suffixes. */
  lemma LowerSuffix(s: string, e: string)
    requires HasSuffix(s, e)
    ensures HasSuffix(ToLower(s), ToLower(e))
  {
    var d := |s| - |e|;
    assert e == s[d..];
    forall i | 0 <= i < |e|
      ensures ToLower(s)[d..][i] == ToLower(e)[i]
    {
      assert e[i] == s[d + i];
    }
    assert ToLower(s)[d..] == ToLower(e);
  }

  /** A character that lower-cases to something other than a capital letter's image is itself. */
  lemma LowerCharKeeps(c: char)
    ensures LowerChar(c) == '.' ==> c == '.'
    ensures 'a' <= LowerChar(c) <= 'z' ==> c != '.' && c != Paths.Separator
  {
  }

  /** A string that lower-cases to a dot and lower-case letters is a dot and no further dot or separator. */
  lemma DotThenLetters(e: string, x: string)
    requires ToLower(e) == x && x != [] && x[0] == '.'
    requires forall i :: 0 < i < |x| ==> 'a' <= x[i] <= 'z'
    ensures e[0] == '.' && '.' !in e[1..] && Paths.Separator !in e[1..]
  {
    assert LowerChar(e[0]) == x[0];
    LowerCharKeeps(e[0]);
    forall i | 0 <= i < |e[1..]|
      ensures e[1..][i] != '.' && e[1..][i] != Paths.Separator
    {
      assert e[1..][i] == e[i + 1];
      assert LowerChar(e[i + 1]) == x[i + 1];
      LowerCharKeeps(e[i + 1]);
    }
  }

  /** A suffix whose lower-case form is a dot and lower-case letters is an extension. */
  lemma ExtOfLowerSuffix(s: string, x: string)
    requires HasSuffix(ToLower(s), x) && x != [] && x[0] == '.'
    requires forall i :: 0 < i < |x| ==> 'a' <= x[i] <= 'z'
    ensures ToLower(Paths.Ext(s)) == x
  {
    var d := |s| - |x|;
    var e := s[d..];
    assert ToLower(e) == x by {
      LowerSuffix(s, e);
    }
    DotThenLetters(e, x);
    var u := e[1..];
    assert s == s[..d] + "." + u by {
      assert e == "." + u;
      assert s == s[..d] + e;
    }
    ExtAfterDot(s[..d], u);
    assert Paths.Ext(s) == e;
  }

  /** `hasYAMLExt` holds exactly when the lower-cased argument ends in `.yaml` or `.yml`. */
  lemma HasYamlExtMeans(s: string)
    ensures HasYamlExt(s) <==> HasSuffix(ToLower(s), ".yaml") || HasSuffix(ToLower(s), ".yml")
  {
    var e := Paths.Ext(s);
    if HasYamlExt(s) {
      assert e != [];
      LowerSuffix(s, e);
    }
    if HasSuffix(ToLower(s), ".yaml") {
      ExtOfLowerSuffix(s, ".yaml");
    } else if HasSuffix(ToLower(s), ".yml") {
      ExtOfLowerSuffix(s, ".yml");
    }
  }

  /** A name ending in exactly `.yaml` or `.yml` has a YAML extension. */
  lemma SuffixHasYamlExt(s: string)
    requires HasSuffix(s, ".yaml") || HasSuffix(s, ".yml")
    ensures HasYamlExt(s)
  {
    assert ToLower(".yaml") == ".yaml";
    assert ToLower(".yml") == ".yml";
    if HasSuffix(s, ".yaml") {
      LowerSuffix(s, ".yaml");
    } else {
      LowerSuffix(s, ".yml");
    }
    HasYamlExtMeans(s);
  }

  // ---- Paths relative to an absolute root ----

  /** Joining onto an absolute path gives an absolute path. */
  lemma JoinAbs(a: string, b: string)
    ensures Paths.IsAbs(a) ==> Paths.IsAbs(Paths.Join2(a, b))
  {
    if Paths.IsAbs(a) {
      assert Paths.Join2(a, b) == Paths.Clean(Join([a, b], "/"));
    }
  }

  /** A path-like argument: kept if absolute, else joined to the root; then cleaned. */
  function UnderRoot(root: string, p: string): (r: string)
    ensures Paths.IsAbs(root) ==> Paths.IsAbs(r)
  {
    if Paths.IsAbs(p) then Paths.Clean(p)
    else
      JoinAbs(root, p);
      Paths.Clean(Paths.Join2(root, p))
  }

  // ---- resolveEnvironmentArg ----

  /**
   * `resolveEnvironmentArg`: a blank argument is the default environment; a
   * path is resolved against the root; a YAML file name is placed under the
   * environment directory (the file's existence does not change the answer);
   * anything else is a name for the loader.
   */
  function EnvironmentArg(root: string, cfg: Config, arg: string): (r: string)
    ensures IsBlank(arg) ==> r == cfg.defaults.environment
  {
    var name := TrimSpace(arg);
    if name == "" then cfg.defaults.environment
    else if LooksLikePath(name) then UnderRoot(root, name)
    else if HasYamlExt(name) then Paths.Join2(Paths.Join2(root, cfg.paths.environmentsDir), name)
    else name
  }

  /**
   * What the environment loader of the workspace (rooted at the root, reading
   * the configured environment directory) makes of the resolved argument: it
   * takes it as a path exactly when the argument was a path or a YAML file
   * name, and otherwise looks the name up as `<envDir>/<name>.yaml`.
   */
  lemma EnvironmentArgForLoader(root: string, cfg: Config, arg: string, l: YamlEnv.Loader)
    requires Paths.IsAbs(root)
    requires l.rootDir == root && l.envDir == cfg.paths.environmentsDir
    ensures var name := TrimSpace(arg);
      name != "" ==> (YamlEnv.IsPathArg(EnvironmentArg(root, cfg, arg)) <==> LooksLikePath(name) || HasYamlExt(name))
    ensures var name := TrimSpace(arg);
      name != "" && !LooksLikePath(name) && !HasYamlExt(name) ==>
        YamlEnv.EnvTarget(l, EnvironmentArg(root, cfg, arg))
          == YamlEnv.Target(Paths.JoinPath([root, cfg.paths.environmentsDir, name + ".yaml"]), name)
    ensures var name := TrimSpace(arg);
      name != "" && !LooksLikePath(name) && HasYamlExt(name) ==>
        YamlEnv.EnvTarget(l, EnvironmentArg(root, cfg, arg)).path
          == Paths.Clean(Paths.Join2(Paths.Join2(root, cfg.paths.environmentsDir), name))
  {
    var name := TrimSpace(arg);
    var r := EnvironmentArg(root, cfg, arg);
    if name != "" && !LooksLikePath(name) {
      if HasYamlExt(name) {
        var dir := Paths.Join2(root, cfg.paths.environmentsDir);
        JoinAbs(root, cfg.paths.environmentsDir);
        JoinAbs(dir, name);
        assert r[0] == Paths.Separator;
      } else if HasSuffix(name, ".yaml") || HasSuffix(name, ".yml") {
        SuffixHasYamlExt(name);
      }
    } else if name != "" {
      assert r[0] == Paths.Separator;
    }
  }

  // ---- resolveCollectionPath ----

  /** `domain.CollectionRef`. */
  datatype CollectionRef = CollectionRef(name: string, path: string)

  /** The workspace as collection resolution sees it. */
  datatype Workspace = Workspace(
    root: string,
    cfg: Config,
    /** `fileExists`: `os.Stat` succeeds. */
    fileExists: string -> bool,
    /** `ListCollections` of the workspace's collection loader. */
    listCollections: string -> Result<seq<CollectionRef>, Error>)

  const CollectionRequired := Leaf("collection is required (use --collection or -c)")

  function CollectionNotFound(name: string, dir: string): Error {
    Leaf("collection " + Quote(name) + " not found in " + Quote(dir))
  }

  /** The workspace's collections directory. */
  function CollectionsDir(ws: Workspace): string {
    Paths.Join2(ws.root, ws.cfg.paths.collectionsDir)
  }

  /** The files tried in turn: the name itself when it has a YAML extension, then `.yaml` and `.yml` added. */
  function Candidates(dir: string, name: string): (cs: seq<string>) {
    (if HasYamlExt(name) then [Paths.Join2(dir, name)] else [])
    + [Paths.Join2(dir, name + ".yaml"), Paths.Join2(dir, name + ".yml")]
  }

  /** The first of `cs` that exists. */
  function FirstExisting(fileExists: string -> bool, cs: seq<string>): Option<string>
    decreases |cs|
  {
    if cs == [] then None
    else if fileExists(cs[0]) then Some(cs[0])
    else FirstExisting(fileExists, cs[1..])
  }

  /** The first existing candidate is found; nothing is found only when none exists. */
  lemma {:induction false} FirstExistingMeans(fileExists: string -> bool, cs: seq<string>)
    ensures FirstExisting(fileExists, cs).None? <==> forall i :: 0 <= i < |cs| ==> !fileExists(cs[i])
    ensures FirstExisting(fileExists, cs).Some? ==>
      exists i :: (0 <= i < |cs| && cs[i] == FirstExisting(fileExists, cs).value && fileExists(cs[i])
                   && forall j :: 0 <= j < i ==> !fileExists(cs[j]))
    decreases |cs|
  {
    if cs != [] && !fileExists(cs[0]) {
      FirstExistingMeans(fileExists, cs[1..]);
      assert forall i :: 0 < i < |cs| ==> cs[i] == cs[1..][i - 1];
      if FirstExisting(fileExists, cs[1..]).Some? {
        var i :| (0 <= i < |cs[1..]| && cs[1..][i] == FirstExisting(fileExists, cs[1..]).value
                  && fileExists(cs[1..][i]) && forall j :: 0 <= j < i ==> !fileExists(cs[1..][j]));
        assert cs[i + 1] == cs[1..][i];
      }
    } else if cs != [] {
      assert cs[0] == cs[0];
    }
  }

  /** The path of the first listed collection whose name matches, ignoring case. */
  function MatchByName(refs: seq<CollectionRef>, name: string): Option<string>
    decreases |refs|
  {
    if refs == [] then None
    else if EqualFold(refs[0].name, name) then Some(refs[0].path)
    else MatchByName(refs[1..], name)
  }

  /** The first match is found; nothing is found only when no name matches. */
  lemma {:induction false} MatchByNameMeans(refs: seq<CollectionRef>, name: string)
    ensures MatchByName(refs, name).None? <==> forall i :: 0 <= i < |refs| ==> !EqualFold(refs[i].name, name)
    ensures MatchByName(refs, name).Some? ==>
      exists i :: (0 <= i < |refs| && refs[i].path == MatchByName(refs, name).value && EqualFold(refs[i].name, name)
                   && forall j :: 0 <= j < i ==> !EqualFold(refs[j].name, name))
    decreases |refs|
  {
    if refs != [] && !EqualFold(refs[0].name, name) {
      MatchByNameMeans(refs[1..], name);
      assert forall i :: 0 < i < |refs| ==> refs[i] == refs[1..][i - 1];
      if MatchByName(refs[1..], name).Some? {
        var i :| (0 <= i < |refs[1..]| && refs[1..][i].path == MatchByName(refs[1..], name).value
                  && EqualFold(refs[1..][i].name, name) && forall j :: 0 <= j < i ==> !EqualFold(refs[1..][j].name, name));
        assert refs[i + 1] == refs[1..][i];
      }
    } else if refs != [] {
      assert refs[0] == refs[0];
    }
  }

  /** The collection found by name, when the listing succeeds. */
  function Listed(ws: Workspace, name: string): Option<string> {
    match ws.listCollections(ws.root)
    case Err(_) => None
    case Ok(refs) => MatchByName(refs, name)
  }

  /**
   * `resolveCollectionPath`: a blank argument is refused, a path is resolved
   * against the root, and a name is looked for as a file in the collections
   * directory and then among the listed collections.
   */
  function CollectionPath(ws: Workspace, arg: string): Result<string, Error> {
    var name := TrimSpace(arg);
    if name == "" then Err(CollectionRequired)
    else if LooksLikePath(name) then Ok(UnderRoot(ws.root, name))
    else
      var dir := CollectionsDir(ws);
      match FirstExisting(ws.fileExists, Candidates(dir, name))
      case Some(p) => Ok(p)
      case None =>
        match Listed(ws, name)
        case Some(p) => Ok(p)
        case None => Err(CollectionNotFound(name, dir))
  }

  /**
   * A blank argument is an error; a name resolves to the first candidate file
   * that exists, failing that to the first listed collection of that name
   * (ignoring case), and otherwise fails naming the name and the directory —
   * in which case no candidate exists and no listed collection matches.
   */
  lemma CollectionPathMeans(ws: Workspace, arg: string)
    ensures IsBlank(arg) ==> CollectionPath(ws, arg) == Err(CollectionRequired)
    ensures var name := TrimSpace(arg);
      name != "" && LooksLikePath(name) ==>
        CollectionPath(ws, arg).Ok? && (Paths.IsAbs(ws.root) ==> Paths.IsAbs(CollectionPath(ws, arg).value))
    ensures var name := TrimSpace(arg); var cs := Candidates(CollectionsDir(ws), name);
      name != "" && !LooksLikePath(name) && CollectionPath(ws, arg).Ok? ==>
        (exists i :: (0 <= i < |cs| && cs[i] == CollectionPath(ws, arg).value && ws.fileExists(cs[i])
                      && forall j :: 0 <= j < i ==> !ws.fileExists(cs[j])))
        || ((forall i :: 0 <= i < |cs| ==> !ws.fileExists(cs[i]))
            && ws.listCollections(ws.root).Ok?
            && exists k :: (0 <= k < |ws.listCollections(ws.root).value|
                            && ws.listCollections(ws.root).value[k].path == CollectionPath(ws, arg).value
                            && EqualFold(ws.listCollections(ws.root).value[k].name, name)))
    ensures var name := TrimSpace(arg); var cs := Candidates(CollectionsDir(ws), name);
      name != "" && CollectionPath(ws, arg).Err? ==>
        CollectionPath(ws, arg).error == CollectionNotFound(name, CollectionsDir(ws))
        && (forall i :: 0 <= i < |cs| ==> !ws.fileExists(cs[i]))
        && (ws.listCollections(ws.root).Ok? ==>
              forall k :: 0 <= k < |ws.listCollections(ws.root).value| ==>
                !EqualFold(ws.listCollections(ws.root).value[k].name, name))
  {
    var name := TrimSpace(arg);
    var cs := Candidates(CollectionsDir(ws), name);
    FirstExistingMeans(ws.fileExists, cs);
    if ws.listCollections(ws.root).Ok? {
      MatchByNameMeans(ws.listCollections(ws.root).value, name);
    }
  }

  /** Probing a list: its head if that exists, else the rest. */
  lemma FirstExistingCons(fileExists: string -> bool, c: string, cs: seq<string>)
    ensures FirstExisting(fileExists, [c] + cs) == if fileExists(c) then Some(c) else FirstExisting(fileExists, cs)
  {
    assert ([c] + cs)[1..] == cs;
  }

  /** The probes of the collections directory one after the other. */
  lemma CandidatesProbed(fileExists: string -> bool, dir: string, name: string)
    ensures var p := Paths.Join2(dir, name);
      var p1 := Paths.Join2(dir, name + ".yaml");
      var p2 := Paths.Join2(dir, name + ".yml");
      FirstExisting(fileExists, Candidates(dir, name)) ==
        if HasYamlExt(name) && fileExists(p) then Some(p)
        else if fileExists(p1) then Some(p1)
        else if fileExists(p2) then Some(p2)
        else None
  {
    var p := Paths.Join2(dir, name);
    var p1 := Paths.Join2(dir, name + ".yaml");
    var p2 := Paths.Join2(dir, name + ".yml");
    FirstExistingCons(fileExists, p2, []);
    FirstExistingCons(fileExists, p1, [p2]);
    if HasYamlExt(name) {
      FirstExistingCons(fileExists, p, [p1, p2]);
      assert Candidates(dir, name) == [p] + [p1, p2];
    } else {
      assert Candidates(dir, name) == [p1, p2];
    }
  }

  /** `resolveCollectionPath` as written: three probes, then a loop over the listed collections. */
  method ResolveCollectionPath(ws: Workspace, arg: string) returns (r: Result<string, Error>)
    ensures r == CollectionPath(ws, arg)
  {
    var name := TrimSpace(arg);
    if name == "" {
      return Err(CollectionRequired);
    }
    if LooksLikePath(name) {
      return Ok(UnderRoot(ws.root, name));
    }
    var dir := CollectionsDir(ws);
    var p := Paths.Join2(dir, name);
    var p1 := Paths.Join2(dir, name + ".yaml");
    var p2 := Paths.Join2(dir, name + ".yml");
    CandidatesProbed(ws.fileExists, dir, name);
    if HasYamlExt(name) && ws.fileExists(p) {
      return Ok(p);
    }
    if ws.fileExists(p1) {
      return Ok(p1);
    }
    if ws.fileExists(p2) {
      return Ok(p2);
    }
    var listed := ws.listCollections(ws.root);
    if listed.Ok? {
      var refs := listed.value;
      for i := 0 to |refs|
        invariant MatchByName(refs, name) == MatchByName(refs[i..], name)
      {
        assert refs[i..][1..] == refs[i + 1..];
        if EqualFold(refs[i].name, name) {
          return Ok(refs[i].path);
        }
      }
    }
    return Err(CollectionNotFound(name, dir));
  }

  // ---- resolveWorkspaceRoot ----

  /**
   * `resolveWorkspaceRoot`: a non-blank flag made absolute; otherwise the
   * workspace found upward from the working directory. Each failure is
   * wrapped with what was being done.
   */
  function WorkspaceRoot(flag: string, host: WorkspaceFinder.Host, getwd: Result<string, Error>): Result<string, Error> {
    var w := TrimSpace(flag);
    if w != "" then
      match host.abs(w)
      case Err(e) => Err(Wrapped("invalid workspace path: ", e))
      case Ok(a) => Ok(a)
    else
      match getwd
      case Err(e) => Err(Wrapped("get working directory: ", e))
      case Ok(wd) =>
        match WorkspaceFinder.Found(WorkspaceFinder.DefaultFinder, host, wd)
        case Err(e) => Err(Wrapped("workspace not found from " + Quote(wd) + " (tip: run `lynix init`): ", e))
        case Ok(root) => Ok(root)
  }

  /** Wrapping an error keeps its kind. */
  lemma WrappedKind(prefix: string, e: Error)
    ensures KindOf(Wrapped(prefix, e)) == KindOf(e)
  {
    forall k: Kind
      ensures IsKind(Some(Wrapped(prefix, e)), k) == IsKind(Some(e), k)
    {
      WrappedKeepsKind(prefix, e, k);
    }
  }

  /**
   * A flag gives its absolute form, or an error of the same kind as the one
   * `filepath.Abs` returned. Without the flag, a root found from the working
   * directory holds `lynix.yaml`, and when the working directory is known but
   * no root holds the file, the error is not found.
   */
  lemma WorkspaceRootMeans(flag: string, host: WorkspaceFinder.Host, getwd: Result<string, Error>)
    ensures var w := TrimSpace(flag);
      w != "" ==>
        && (WorkspaceRoot(flag, host, getwd).Ok? <==> host.abs(w).Ok?)
        && (host.abs(w).Ok? ==> WorkspaceRoot(flag, host, getwd).value == host.abs(w).value)
        && (host.abs(w).Err? ==> KindOf(WorkspaceRoot(flag, host, getwd).error) == KindOf(host.abs(w).error))
    ensures IsBlank(flag) && getwd.Err? ==>
      KindOf(WorkspaceRoot(flag, host, getwd).error) == KindOf(getwd.error)
    ensures IsBlank(flag) && getwd.Ok? && WorkspaceRoot(flag, host, getwd).Ok? ==>
      host.exists_(Paths.Join2(WorkspaceRoot(flag, host, getwd).value, WorkspaceFinder.DefaultFinder.configFile))
    ensures (IsBlank(flag) && getwd.Ok? && getwd.value != "" && host.abs(getwd.value).Ok?
             && WorkspaceRoot(flag, host, getwd).Err?) ==>
        KindOf(WorkspaceRoot(flag, host, getwd).error) == Some(NotFound)
  {
    var w := TrimSpace(flag);
    var f := WorkspaceFinder.DefaultFinder;
    if w != "" {
      if host.abs(w).Err? {
        WrappedKind("invalid workspace path: ", host.abs(w).error);
      }
    } else if getwd.Err? {
      WrappedKind("get working directory: ", getwd.error);
    } else {
      var wd := getwd.value;
      var found := WorkspaceFinder.Found(f, host, wd);
      if found.Ok? {
        match WorkspaceFinder.Start(host, wd)
        case Ok(cur) =>
          WorkspaceFinder.FirstHoldingFinds(host, f.configFile, WorkspaceFinder.Walk(cur));
        case Err(_) =>
      } else {
        WrappedKind("workspace not found from " + Quote(wd) + " (tip: run `lynix init`): ", found.error);
        if wd != "" && host.abs(wd).Ok? {
          WorkspaceFinder.FoundMeans(f, host, wd);
          OpErrorKind("workspacefinder.findroot", NotFound, "", Some(ErrNotFound), NotFound);
        }
      }
    }
  }
}
