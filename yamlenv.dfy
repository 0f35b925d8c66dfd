/**
 * `yamlenv.Loader`: an environment given by name or by path, read from YAML,
 * with an optional secrets file beside it whose variables override the base
 * ones. Reading, `os.Stat` and YAML decoding are functions passed in.
 */
module YamlEnv {
  import opened Common
  import opened Text
  import opened Errors
  import opened Domain
  import Paths

  const DefaultEnvDir := "env"
  const DefaultSecretsFile := "secrets.local.yaml"

  datatype Loader = Loader(rootDir: string, envDir: string, secretsFile: string)

  datatype LoaderOption = WithEnvDir(dir: string) | WithSecretsFile(name: string)

  function ApplyOption(l: Loader, opt: LoaderOption): (out: Loader)
    ensures out.rootDir == l.rootDir
    ensures opt.WithEnvDir? ==> out == l.(envDir := opt.dir)
    ensures opt.WithSecretsFile? ==> out == l.(secretsFile := opt.name)
  {
    match opt
    case WithEnvDir(dir) => l.(envDir := dir)
    case WithSecretsFile(name) => l.(secretsFile := name)
  }

  /** The options applied in order. */
  function Configured(l: Loader, opts: seq<LoaderOption>): Loader
    decreases |opts|
  {
    if opts == [] then l else Configured(ApplyOption(l, opts[0]), opts[1..])
  }

  /** The root never changes; a setting no option names stays as it was. */
  lemma {:induction false} ConfiguredKeeps(l: Loader, opts: seq<LoaderOption>)
    ensures Configured(l, opts).rootDir == l.rootDir
    ensures (forall i :: 0 <= i < |opts| ==> opts[i].WithSecretsFile?) ==> Configured(l, opts).envDir == l.envDir
    ensures (forall i :: 0 <= i < |opts| ==> opts[i].WithEnvDir?) ==> Configured(l, opts).secretsFile == l.secretsFile
    decreases |opts|
  {
    if opts != [] {
      ConfiguredKeeps(ApplyOption(l, opts[0]), opts[1..]);
    }
  }

  /** Options apply in order, so the last one has the final say. */
  lemma {:induction false} ConfiguredLast(l: Loader, opts: seq<LoaderOption>)
    requires opts != []
    ensures Configured(l, opts) == ApplyOption(Configured(l, opts[..|opts| - 1]), opts[|opts| - 1])
    decreases |opts|
  {
    if |opts| > 1 {
      ConfiguredLast(ApplyOption(l, opts[0]), opts[1..]);
      assert opts[1..][..|opts[1..]| - 1] == opts[..|opts| - 1][1..];
    }
  }

  /** `NewLoader`: directory `env`, secrets file `secrets.local.yaml`, then the options in order. */
  method NewLoader(root: string, opts: seq<LoaderOption>) returns (l: Loader)
    ensures l == Configured(Loader(root, DefaultEnvDir, DefaultSecretsFile), opts)
  {
    l := Loader(root, DefaultEnvDir, DefaultSecretsFile);
    for i := 0 to |opts|
      invariant Configured(Loader(root, DefaultEnvDir, DefaultSecretsFile), opts) == Configured(l, opts[i..])
    {
      assert opts[i..][1..] == opts[i + 1..];
      l := ApplyOption(l, opts[i]);
    }
  }

  /** An argument ending in `.yaml` or `.yml`, or holding a separator, is a path. */
  predicate IsPathArg(s: string) {
    HasSuffix(s, ".yaml") || HasSuffix(s, ".yml") || Paths.Separator in s
  }

  /** The file to read and the name to give the environment. */
  datatype Target = Target(path: string, name: string)

  /** A path is cleaned and names the environment by its file name; a name is looked up under the environment directory. */
  function EnvTarget(l: Loader, nameOrPath: string): (t: Target)
    ensures IsPathArg(nameOrPath) ==> t.path == Paths.Clean(nameOrPath) && t.name == Paths.Stem(t.path)
    ensures !IsPathArg(nameOrPath) ==>
      t.name == nameOrPath && t.path == Paths.JoinPath([l.rootDir, l.envDir, nameOrPath + ".yaml"])
  {
    if IsPathArg(nameOrPath) then
      var p := Paths.Clean(nameOrPath);
      Target(p, TrimSuffix(Paths.Base(p), Paths.Ext(p)))
    else Target(Paths.JoinPath([l.rootDir, l.envDir, nameOrPath + ".yaml"]), nameOrPath)
  }

  /** Either way the environment's name is a single file name (or the root). */
  lemma TargetNameIsFileName(l: Loader, nameOrPath: string)
    ensures var n := EnvTarget(l, nameOrPath).name;
      n == "/" || Paths.Separator !in n
  {
    if IsPathArg(nameOrPath) {
      Paths.StemIsFileName(Paths.Clean(nameOrPath));
    }
  }

  /** `yamlEnv`, the decoded document. */
  datatype YamlEnvironment = YamlEnvironment(vars: Option<StringMap>)

  /** What `os.Stat` reports: the file exists, does not exist, or the check itself failed. */
  datatype Stat = Present | Absent | StatFailed(err: Error)

  datatype Files = Files(
    readFile: string -> Result<seq<Text.byte>, Error>,
    stat: string -> Stat,
    decode: seq<Text.byte> -> Result<YamlEnvironment, Error>)

  /** `readVars`: a missing file is not found, a bad document invalid config, absent `vars` empty. */
  function ReadVars(fs: Files, path: string): (r: Result<StringMap, Error>)
    ensures fs.readFile(path).Err? ==> r.Err? && KindOf(r.error) == Some(NotFound)
    ensures fs.readFile(path).Ok? && fs.decode(fs.readFile(path).value).Err? ==>
      r.Err? && KindOf(r.error) == Some(InvalidConfig)
    ensures fs.readFile(path).Ok? && fs.decode(fs.readFile(path).value).Ok? ==>
      r == Ok(fs.decode(fs.readFile(path).value).value.vars.GetOr(map[]))
  {
    match fs.readFile(path)
    case Err(e) =>
      OpErrorKind("yamlenv.load", NotFound, path, Some(e), NotFound);
      Err(OpError("yamlenv.load", NotFound, path, Some(e)))
    case Ok(b) =>
      match fs.decode(b)
      case Err(e) =>
        OpErrorKind("yamlenv.load", InvalidConfig, path, Some(e), InvalidConfig);
        Err(OpError("yamlenv.load", InvalidConfig, path, Some(e)))
      case Ok(y) => Ok(y.vars.GetOr(map[]))
  }

  /**
   * `readVarsOptional`: a file that does not exist is an empty overlay; a
   * failed check is an execution error; otherwise the file is read as the
   * base is, its errors keeping their kind.
   */
  function ReadVarsOptional(fs: Files, path: string): (r: Result<StringMap, Error>)
    ensures fs.stat(path).Absent? ==> r == Ok(map[])
    ensures fs.stat(path).StatFailed? ==> r.Err? && KindOf(r.error) == Some(Execution)
    ensures fs.stat(path).Present? ==>
      (r.Ok? <==> ReadVars(fs, path).Ok?)
      && (r.Ok? ==> r.value == ReadVars(fs, path).value)
      && (r.Err? ==> KindOf(r.error) == KindOf(ReadVars(fs, path).error))
  {
    match fs.stat(path)
    case Absent => Ok(map[])
    case StatFailed(e) =>
      OpErrorKind("yamlenv.secrets", Execution, path, Some(e), Execution);
      Err(OpError("yamlenv.secrets", Execution, path, Some(e)))
    case Present =>
      match ReadVars(fs, path)
      case Err(e) =>
        assert FirstOpError(Wrapped("failed to load secrets: ", e)) == FirstOpError(e);
        assert FirstDomainError(Wrapped("failed to load secrets: ", e)) == FirstDomainError(e);
        Err(Wrapped("failed to load secrets: ", e))
      case Ok(v) => Ok(v)
  }

  /** The secrets file sits beside the environment file. */
  function SecretsPath(l: Loader, envPath: string): string {
    Paths.Join2(Paths.Dir(envPath), l.secretsFile)
  }

  /** The environment file `t.path` overlaid with the secrets file `secretsPath`. */
  function LoadFrom(fs: Files, t: Target, secretsPath: string): Result<Environment, Error> {
    match ReadVars(fs, t.path)
    case Err(e) => Err(e)
    case Ok(base) =>
      match ReadVarsOptional(fs, secretsPath)
      case Err(e) => Err(e)
      case Ok(secrets) => Ok(Environment(t.name, base + secrets))
  }

  /** `LoadEnvironment`: the target's variables overridden by the secrets beside it. */
  function Loaded(l: Loader, fs: Files, nameOrPath: string): Result<Environment, Error> {
    var t := EnvTarget(l, nameOrPath);
    LoadFrom(fs, t, SecretsPath(l, t.path))
  }

  /**
   * A loaded environment has every base and every secret variable, a secret
   * winning over a base variable of the same name; without a secrets file it
   * is the base. A missing environment file is not found.
   */
  lemma LoadFromMeans(fs: Files, t: Target, secretsPath: string)
    ensures fs.readFile(t.path).Err? ==> KindOf(LoadFrom(fs, t, secretsPath).error) == Some(NotFound)
    ensures LoadFrom(fs, t, secretsPath).Ok? ==>
      var env := LoadFrom(fs, t, secretsPath).value;
      var base := ReadVars(fs, t.path).value;
      var secrets := ReadVarsOptional(fs, secretsPath).value;
      env.name == t.name
      && env.vars.Keys == base.Keys + secrets.Keys
      && (forall k :: k in secrets ==> env.vars[k] == secrets[k])
      && (forall k :: k in base && k !in secrets ==> env.vars[k] == base[k])
    ensures fs.stat(secretsPath).Absent? && ReadVars(fs, t.path).Ok? ==>
      LoadFrom(fs, t, secretsPath) == Ok(Environment(t.name, ReadVars(fs, t.path).value))
  {
    if ReadVars(fs, t.path).Ok? && fs.stat(secretsPath).Absent? {
      assert ReadVars(fs, t.path).value + map[] == ReadVars(fs, t.path).value;
    }
  }

  /** `LoadEnvironment`: the target chosen, then read and overlaid. */
  method LoadEnvironment(l: Loader, fs: Files, nameOrPath: string) returns (r: Result<Environment, Error>)
    ensures r == Loaded(l, fs, nameOrPath)
  {
    var t := EnvTarget(l, nameOrPath);
    r := LoadTarget(fs, t, SecretsPath(l, t.path));
  }

  /** The reads of `LoadEnvironment` and its two copy loops into a fresh map. */
  method LoadTarget(fs: Files, t: Target, secretsPath: string) returns (r: Result<Environment, Error>)
    ensures r == LoadFrom(fs, t, secretsPath)
  {
    var base := ReadVars(fs, t.path);
    if base.Err? {
      r := Err(base.error);
      return;
    }
    var secrets := ReadVarsOptional(fs, secretsPath);
    if secrets.Err? {
      r := Err(secrets.error);
      return;
    }
    var merged: StringMap := map[];
    var todo := base.value.Keys;
    while todo != {}
      invariant todo <= base.value.Keys
      invariant merged.Keys == base.value.Keys - todo
      invariant forall k :: k in merged ==> merged[k] == base.value[k]
      decreases todo
    {
      var k :| k in todo;
      merged := merged[k := base.value[k]];
      todo := todo - {k};
    }
    assert merged == base.value;
    todo := secrets.value.Keys;
    while todo != {}
      invariant todo <= secrets.value.Keys
      invariant merged.Keys == base.value.Keys + (secrets.value.Keys - todo)
      invariant forall k :: k in secrets.value && k !in todo ==> merged[k] == secrets.value[k]
      invariant forall k :: k in base.value && (k !in secrets.value || k in todo) ==> merged[k] == base.value[k]
      decreases todo
    {
      var k :| k in todo;
      merged := merged[k := secrets.value[k]];
      todo := todo - {k};
    }
    assert merged == base.value + secrets.value;
    r := Ok(Environment(t.name, merged));
  }
}
