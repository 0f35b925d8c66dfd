/**
 * `workspacefinder.Finder.FindRoot`: the nearest directory, walking up from
 * the start, that holds the configuration file. `filepath.Abs` (which reads
 * the working directory) and the two `os.Stat` checks are functions passed in.
 */
module WorkspaceFinder {
  import opened Common
  import opened Text
  import opened Errors
  import Paths

  datatype Finder = Finder(configFile: string)

  /** `NewFinder`. */
  const DefaultFinder := Finder("lynix.yaml")

  datatype Host = Host(
    /** `filepath.Abs`. */
    abs: string -> Result<string, Error>,
    /** `os.Stat(p)` succeeds and reports something other than a directory. */
    isFile: string -> bool,
    /** `os.Stat(p)` succeeds. */
    exists_: string -> bool)

  /** A measure that drops with every step up: "." is lowest, then shorter paths. */
  function Height(p: string): nat {
    if p == "." then 0 else |p| + 1
  }

  /** Moving to a parent other than the directory itself lowers the height. */
  lemma ParentLower(p: string)
    requires Paths.Dir(p) != p
    ensures Height(Paths.Dir(p)) < Height(p)
  {
    Paths.DirProgress(p);
  }

  /** The directories the walk visits from `cur`: `cur`, its parent, and so on up to the root. */
  function Walk(cur: string): (w: seq<string>)
    ensures w != [] && w[0] == cur
    decreases Height(cur)
  {
    var parent := Paths.Dir(cur);
    if parent == cur then [cur]
    else
      ParentLower(cur);
      [cur] + Walk(parent)
  }

  /** Each directory of the walk after the first is the parent of the one before. */
  lemma {:induction false} WalkSteps(cur: string)
    ensures forall i :: 0 < i < |Walk(cur)| ==> Walk(cur)[i] == Paths.Dir(Walk(cur)[i - 1])
    ensures Paths.Dir(Walk(cur)[|Walk(cur)| - 1]) == Walk(cur)[|Walk(cur)| - 1]
    decreases Height(cur)
  {
    var parent := Paths.Dir(cur);
    var w := Walk(cur);
    if parent != cur {
      ParentLower(cur);
      WalkSteps(parent);
      var v := Walk(parent);
      assert w == [cur] + v;
      forall i | 0 < i < |w|
        ensures w[i] == Paths.Dir(w[i - 1])
      {
        if i > 1 {
          assert w[i] == v[i - 1] && w[i - 1] == v[i - 2];
        } else {
          assert w[1] == v[0];
        }
      }
      assert w[|w| - 1] == v[|v| - 1];
    } else {
      assert w == [cur];
    }
  }

  const EmptyStart := OpError("workspacefinder.findroot", InvalidConfig, "", Some(Leaf("startDir is empty")))
  const NoRoot := OpError("workspacefinder.findroot", NotFound, "", Some(ErrNotFound))

  /** The first directory of `w` that holds `name`, or not found. */
  function FirstHolding(host: Host, name: string, w: seq<string>): (r: Result<string, Error>)
  {
    if w == [] then Err(NoRoot)
    else if host.exists_(Paths.Join2(w[0], name)) then Ok(w[0])
    else FirstHolding(host, name, w[1..])
  }

  /** The search fails, with not found, exactly when no directory of the walk holds the file. */
  lemma {:induction false} FirstHoldingFails(host: Host, name: string, w: seq<string>)
    ensures FirstHolding(host, name, w).Err? <==> forall i :: 0 <= i < |w| ==> !host.exists_(Paths.Join2(w[i], name))
    ensures FirstHolding(host, name, w).Err? ==> FirstHolding(host, name, w).error == NoRoot
    decreases |w|
  {
    if w != [] && !host.exists_(Paths.Join2(w[0], name)) {
      FirstHoldingFails(host, name, w[1..]);
      assert forall i :: 0 < i < |w| ==> w[i] == w[1..][i - 1];
    }
  }

  /** A found directory is the first of the walk that holds the file. */
  lemma {:induction false} FirstHoldingFinds(host: Host, name: string, w: seq<string>)
    requires FirstHolding(host, name, w).Ok?
    ensures exists i :: (0 <= i < |w| && FirstHolding(host, name, w).value == w[i]
                         && host.exists_(Paths.Join2(w[i], name))
                         && forall j :: 0 <= j < i ==> !host.exists_(Paths.Join2(w[j], name)))
    decreases |w|
  {
    if !host.exists_(Paths.Join2(w[0], name)) {
      FirstHoldingFinds(host, name, w[1..]);
      var i :| (0 <= i < |w[1..]| && FirstHolding(host, name, w[1..]).value == w[1..][i]
                && host.exists_(Paths.Join2(w[1..][i], name))
                && forall j :: 0 <= j < i ==> !host.exists_(Paths.Join2(w[1..][j], name)));
      assert w[i + 1] == w[1..][i];
      assert forall j :: 0 < j <= i ==> w[j] == w[1..][j - 1];
    } else {
      assert w[0] == w[0];
    }
  }

  /** The loop of `FindRoot` from `cur`: the first directory of the walk up that holds `name`. */
  function Search(host: Host, name: string, cur: string): Result<string, Error> {
    FirstHolding(host, name, Walk(cur))
  }

  /** One step of the loop: found here, at the root with nothing found, or on to the parent. */
  lemma SearchStep(host: Host, name: string, cur: string)
    ensures Search(host, name, cur) ==
      if host.exists_(Paths.Join2(cur, name)) then Ok(cur)
      else if Paths.Dir(cur) == cur then Err(NoRoot)
      else Search(host, name, Paths.Dir(cur))
  {
    var w := Walk(cur);
    if Paths.Dir(cur) == cur {
      assert w == [cur];
      assert w[1..] == [];
      assert FirstHolding(host, name, w[1..]) == Err(NoRoot);
    } else {
      assert w == [cur] + Walk(Paths.Dir(cur));
      assert w[1..] == Walk(Paths.Dir(cur));
    }
  }

  /** `FindRoot` before the loop: a non-empty start made absolute, a file replaced by its directory, cleaned. */
  function Start(host: Host, startDir: string): Result<string, Error> {
    if startDir == "" then Err(EmptyStart)
    else
      match host.abs(startDir)
      case Err(e) => Err(OpError("workspacefinder.findroot", Execution, "", Some(e)))
      case Ok(a) => Ok(Paths.Clean(if host.isFile(a) then Paths.Dir(a) else a))
  }

  /** `FindRoot`: the start, then the upward search. */
  function Found(f: Finder, host: Host, startDir: string): (r: Result<string, Error>)
    ensures startDir == "" ==> r == Err(EmptyStart) && KindOf(r.error) == Some(InvalidConfig)
  {
    match Start(host, startDir)
    case Err(e) =>
      OpErrorKind("workspacefinder.findroot", InvalidConfig, "", Some(Leaf("startDir is empty")), InvalidConfig);
      Err(e)
    case Ok(cur) => Search(host, f.configFile, cur)
  }

  /**
   * An empty start is invalid config and a failed `Abs` an execution error;
   * otherwise the search runs from the cleaned absolute start, or from its
   * directory when the start is a file, and fails only with not found.
   */
  lemma FoundMeans(f: Finder, host: Host, startDir: string)
    ensures startDir != "" && host.abs(startDir).Err? ==> KindOf(Found(f, host, startDir).error) == Some(Execution)
    ensures startDir != "" && host.abs(startDir).Ok? ==>
      var a := host.abs(startDir).value;
      Found(f, host, startDir) == Search(host, f.configFile, Paths.Clean(if host.isFile(a) then Paths.Dir(a) else a))
    ensures startDir != "" && host.abs(startDir).Ok? && Found(f, host, startDir).Err? ==>
      Found(f, host, startDir).error == NoRoot && KindOf(NoRoot) == Some(NotFound)
  {
    if startDir != "" && host.abs(startDir).Ok? {
      var a := host.abs(startDir).value;
      FirstHoldingFails(host, f.configFile, Walk(Paths.Clean(if host.isFile(a) then Paths.Dir(a) else a)));
    } else if startDir != "" {
      OpErrorKind("workspacefinder.findroot", Execution, "", Some(host.abs(startDir).error), Execution);
    }
  }

  /** The `for` loop of `FindRoot`, moving to the parent until the file is found or the root reached. */
  method FindRoot(f: Finder, host: Host, startDir: string) returns (r: Result<string, Error>)
    ensures r == Found(f, host, startDir)
  {
    if startDir == "" {
      return Err(EmptyStart);
    }
    var abs := host.abs(startDir);
    if abs.Err? {
      return Err(OpError("workspacefinder.findroot", Execution, "", Some(abs.error)));
    }
    var a := abs.value;
    if host.isFile(a) {
      a := Paths.Dir(a);
    }
    var cur := Paths.Clean(a);
    ghost var start := cur;
    while true
      invariant Search(host, f.configFile, cur) == Search(host, f.configFile, start)
      invariant Start(host, startDir) == Ok(start)
      decreases Height(cur)
    {
      SearchStep(host, f.configFile, cur);
      if host.exists_(Paths.Join2(cur, f.configFile)) {
        return Ok(cur);
      }
      var parent := Paths.Dir(cur);
      if parent == cur {
        return Err(NoRoot);
      }
      ParentLower(cur);
      cur := parent;
    }
  }
}
