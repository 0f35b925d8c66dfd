/**
 * `workspacefinder.LoadConfig`: `lynix.yaml` under the workspace root laid
 * over the default configuration, setting by setting. Reading the file and
 * decoding YAML are functions passed in.
 */
module WorkspaceConfig {
  import opened Common
  import opened Text
  import opened Errors
  import opened Domain
  import Paths

  const ConfigFileName := "lynix.yaml"

  /** `yamlConfig`: an unset `enabled` is `None`, an unset string is "". */
  datatype YamlConfig = YamlConfig(
    maskingEnabled: Option<bool>,
    env: string,
    collectionsDir: string,
    environmentsDir: string,
    runsDir: string)

  /** A document that sets nothing. */
  const EmptyDocument := YamlConfig(None, "", "", "", "")

  /** A string setting replaces the default only when it is non-empty. */
  function Override(dflt: string, given: string): (r: string)
    ensures given != "" ==> r == given
    ensures given == "" ==> r == dflt
  {
    if given != "" then given else dflt
  }

  /** The document's settings applied on top of `DefaultConfig`. */
  function Overlay(y: YamlConfig): (cfg: Config)
    ensures cfg.masking.enabled == if y.maskingEnabled.Some? then y.maskingEnabled.value else true
    ensures cfg.defaults.environment == Override("dev", y.env)
    ensures cfg.paths == PathsConfig(
      Override("collections", y.collectionsDir), Override("env", y.environmentsDir), Override("runs", y.runsDir))
    ensures cfg.artifacts == DefaultConfig.artifacts
  {
    var cfg := DefaultConfig;
    var cfg := if y.maskingEnabled.Some? then cfg.(masking := MaskingConfig(y.maskingEnabled.value)) else cfg;
    var cfg := if y.env != "" then cfg.(defaults := DefaultsConfig(y.env)) else cfg;
    var cfg := if y.collectionsDir != "" then cfg.(paths := cfg.paths.(collectionsDir := y.collectionsDir)) else cfg;
    var cfg := if y.environmentsDir != "" then cfg.(paths := cfg.paths.(environmentsDir := y.environmentsDir)) else cfg;
    if y.runsDir != "" then cfg.(paths := cfg.paths.(runsDir := y.runsDir)) else cfg
  }

  /** A document that sets nothing leaves the defaults, and every setting is non-empty whatever the document says. */
  lemma OverlayDefaults(y: YamlConfig)
    ensures Overlay(EmptyDocument) == DefaultConfig
    ensures Overlay(y).defaults.environment != "" && Overlay(y).paths.collectionsDir != ""
    ensures Overlay(y).paths.environmentsDir != "" && Overlay(y).paths.runsDir != ""
  {
  }

  /** Writing a configuration back as a document and overlaying it gives that configuration. */
  lemma OverlayOfConfig(cfg: Config)
    requires cfg.artifacts == DefaultConfig.artifacts
    requires cfg.defaults.environment != "" && cfg.paths.collectionsDir != ""
    requires cfg.paths.environmentsDir != "" && cfg.paths.runsDir != ""
    ensures Overlay(YamlConfig(Some(cfg.masking.enabled), cfg.defaults.environment,
      cfg.paths.collectionsDir, cfg.paths.environmentsDir, cfg.paths.runsDir)) == cfg
  {
  }

  /** The file system and the YAML decoder, as `LoadConfig` uses them. */
  datatype Source = Source(
    readFile: string -> Result<seq<Text.byte>, Error>,
    decode: seq<Text.byte> -> Result<YamlConfig, Error>)

  /** `LoadConfig` returns a configuration even when it also returns an error. */
  datatype Loaded = Loaded(cfg: Config, err: Option<Error>)

  /**
   * `LoadConfig`: a missing file is not found and a bad document invalid
   * config, with the defaults returned beside the error; otherwise the
   * document laid over the defaults.
   */
  function LoadConfig(src: Source, root: string): (r: Loaded)
    ensures r.err.Some? ==> r.cfg == DefaultConfig
    ensures src.readFile(Paths.Join2(root, ConfigFileName)).Err? ==> r.err.Some? && KindOf(r.err.value) == Some(NotFound)
    ensures var path := Paths.Join2(root, ConfigFileName);
      src.readFile(path).Ok? && src.decode(src.readFile(path).value).Err? ==>
        r.err.Some? && KindOf(r.err.value) == Some(InvalidConfig)
    ensures var path := Paths.Join2(root, ConfigFileName);
      src.readFile(path).Ok? && src.decode(src.readFile(path).value).Ok? ==>
        r == Loaded(Overlay(src.decode(src.readFile(path).value).value), None)
  {
    var path := Paths.Join2(root, ConfigFileName);
    match src.readFile(path)
    case Err(e) =>
      OpErrorKind("workspacefinder.loadconfig", NotFound, path, Some(e), NotFound);
      Loaded(DefaultConfig, Some(OpError("workspacefinder.loadconfig", NotFound, path, Some(e))))
    case Ok(b) =>
      match src.decode(b)
      case Err(e) =>
        OpErrorKind("workspacefinder.loadconfig", InvalidConfig, path, Some(e), InvalidConfig);
        Loaded(DefaultConfig, Some(OpError("workspacefinder.loadconfig", InvalidConfig, path, Some(e))))
      case Ok(y) => Loaded(Overlay(y), None)
  }
}
