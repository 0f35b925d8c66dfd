/**
 * The JSON artifact store: the masking of sensitive extracted variables and
 * response headers, the file-name slug, and the naming and write sequence of
 * `SaveRun`. The file system, the JSON encoder and the time formatter are the
 * functions of a `Host` value.
 */
module RunStore {
  import opened Common
  import opened Text
  import opened Errors
  import opened Domain
  import opened Paths

  const DefaultRunsDir := "runs"
  const MaskValue := "********"

  // ---- Sensitivity ----

  /** A variable name is sensitive when, lower-cased, it mentions a token, a secret or a password. */
  predicate IsSensitiveKey(k: string) {
    var kk := ToLower(k);
    Contains(kk, "token") || Contains(kk, "secret") || Contains(kk, "password")
  }

  const SensitiveHeaderNames: set<string> :=
    {"authorization", "proxy-authorization", "cookie", "set-cookie", "x-api-key", "x-auth-token"}

  /** A header name is sensitive when, trimmed and lower-cased, it is a credential header or mentions one. */
  predicate IsSensitiveHeaderKey(k: string) {
    var kk := ToLower(TrimSpace(k));
    kk in SensitiveHeaderNames
    || Contains(kk, "token") || Contains(kk, "secret") || Contains(kk, "password")
    || Contains(kk, "api-key") || Contains(kk, "apikey")
  }

  // ---- Masking, as values ----

  /** The extracted variables with every sensitive value replaced. */
  function MaskedVars(m: StringMap): (r: StringMap)
    ensures r.Keys == m.Keys
    ensures forall k :: k in m && IsSensitiveKey(k) ==> r[k] == MaskValue
    ensures forall k :: k in m && !IsSensitiveKey(k) ==> r[k] == m[k]
  {
    map k | k in m :: if IsSensitiveKey(k) then MaskValue else m[k]
  }

  function MaskedValues(n: nat): (r: seq<string>)
    ensures |r| == n && forall i :: 0 <= i < n ==> r[i] == MaskValue
  {
    seq(n, _ => MaskValue)
  }

  /** The values of header `k` once masked: all replaced when the name is sensitive, else as they were. */
  function MaskedHeader(k: string, vals: seq<string>): (r: seq<string>)
    ensures |r| == |vals|
    ensures IsSensitiveHeaderKey(k) ==> forall i :: 0 <= i < |r| ==> r[i] == MaskValue
    ensures !IsSensitiveHeaderKey(k) ==> r == vals
  {
    if IsSensitiveHeaderKey(k) then MaskedValues(|vals|) else vals
  }

  /** The response headers with every value of a sensitive header replaced, keeping their number. */
  function MaskedHeaders(h: map<string, seq<string>>): (r: map<string, seq<string>>)
    ensures r.Keys == h.Keys
    ensures forall k :: k in h ==> r[k] == MaskedHeader(k, h[k])
  {
    map k | k in h :: MaskedHeader(k, h[k])
  }

  function MaskedResult(rr: RequestResult): RequestResult {
    rr.(extracted := MaskedVars(rr.extracted),
        response := rr.response.(headers := MaskedHeaders(rr.response.headers)))
  }

  /** `maskArtifact` as a value: each result masked, in place in the list. */
  function Masked(run: RunResult): RunResult {
    run.(results := seq(|run.results|, i requires 0 <= i < |run.results| => MaskedResult(run.results[i])))
  }

  /**
   * Masking keeps the run's fields, the number and order of results and every
   * field of a result but its extracted variables and response headers; those
   * keep their keys (and headers their number of values) and change only where
   * sensitive.
   */
  lemma MaskedMeans(run: RunResult)
    ensures var m := Masked(run);
      m.(results := run.results) == run
      && |m.results| == |run.results|
      && forall i :: 0 <= i < |run.results| ==>
           var a, b := run.results[i], m.results[i];
           b.(extracted := a.extracted, response := a.response) == a
           && b.response.(headers := a.response.headers) == a.response
           && b.extracted.Keys == a.extracted.Keys
           && (forall k :: k in a.extracted ==> b.extracted[k] == if IsSensitiveKey(k) then MaskValue else a.extracted[k])
           && b.response.headers.Keys == a.response.headers.Keys
           && (forall k :: k in a.response.headers ==> |b.response.headers[k]| == |a.response.headers[k]|)
           && (forall k :: k in a.response.headers && !IsSensitiveHeaderKey(k) ==> b.response.headers[k] == a.response.headers[k])
  {
  }

  /** Masking a masked artifact changes nothing more. */
  lemma MaskedIdempotent(run: RunResult)
    ensures Masked(Masked(run)) == Masked(run)
  {
    var m := Masked(run);
    forall i | 0 <= i < |m.results|
      ensures MaskedResult(m.results[i]) == m.results[i]
    {
      var a := run.results[i];
      assert MaskedVars(MaskedVars(a.extracted)) == MaskedVars(a.extracted);
      assert MaskedHeaders(MaskedHeaders(a.response.headers)) == MaskedHeaders(a.response.headers);
    }
    assert Masked(m).results == m.results;
  }

  // ---- Masking, as the loops of `maskArtifact` ----

  /** The loop over a cloned variable map that overwrites sensitive values. */
  method MaskVars(m: StringMap) returns (out: StringMap)
    ensures out == MaskedVars(m)
  {
    out := m;
    var todo := m.Keys;
    while todo != {}
      invariant todo <= m.Keys && out.Keys == m.Keys
      invariant forall k :: k in m && k !in todo ==> out[k] == MaskedVars(m)[k]
      invariant forall k :: k in todo ==> out[k] == m[k]
      decreases todo
    {
      var k :| k in todo;
      if IsSensitiveKey(k) {
        out := out[k := MaskValue];
      }
      todo := todo - {k};
    }
  }

  /** The inner loop: every value of one header becomes the mask. */
  method MaskEach(vals: seq<string>) returns (out: seq<string>)
    ensures out == MaskedValues(|vals|)
  {
    out := vals;
    for i := 0 to |out|
      invariant |out| == |vals|
      invariant forall j :: 0 <= j < i ==> out[j] == MaskValue
    {
      out := out[i := MaskValue];
    }
  }

  /** The loop over the cloned headers that masks every value of a sensitive header. */
  method MaskHeaders(h: map<string, seq<string>>) returns (out: map<string, seq<string>>)
    ensures out == MaskedHeaders(h)
  {
    out := h;
    var todo := h.Keys;
    while todo != {}
      invariant todo <= h.Keys && out.Keys == h.Keys
      invariant forall k :: k in h ==> out[k] == if k in todo then h[k] else MaskedHeader(k, h[k])
      decreases todo
    {
      var k :| k in todo;
      if IsSensitiveHeaderKey(k) {
        var vals := MaskEach(out[k]);
        out := out[k := vals];
      }
      todo := todo - {k};
    }
    assert out == MaskedHeaders(h);
  }

  /** `maskArtifact`: a fresh result list, each entry masked. */
  method MaskArtifact(run: RunResult) returns (out: RunResult)
    ensures out == Masked(run)
  {
    var results: seq<RequestResult> := [];
    for i := 0 to |run.results|
      invariant |results| == i
      invariant forall j :: 0 <= j < i ==> results[j] == MaskedResult(run.results[j])
    {
      var rr := run.results[i];
      var extracted := MaskVars(rr.extracted);
      var headers := MaskHeaders(rr.response.headers);
      results := results + [rr.(extracted := extracted, response := rr.response.(headers := headers))];
    }
    out := run.(results := results);
  }

  // ---- Slugs ----

  predicate IsSlugChar(c: char) {
    'a' <= c <= 'z' || '0' <= c <= '9'
  }

  /** Made only of slug characters and dashes, with no two dashes in a row. */
  predicate DashedShape(s: string) {
    (forall i :: 0 <= i < |s| ==> IsSlugChar(s[i]) || s[i] == '-')
    && forall i :: 0 <= i < |s| - 1 ==> !(s[i] == '-' && s[i + 1] == '-')
  }

  /** A file-name component: slug characters and single dashes, not starting or ending with one. */
  predicate SlugShaped(s: string) {
    DashedShape(s) && (s != [] ==> s[0] != '-' && s[|s| - 1] != '-')
  }

  /**
   * What the `slugify` builder holds after the characters of `s`: slug
   * characters are kept, and any other character writes a dash unless the last
   * character written was one.
   */
  function Dashed(s: string): (r: string)
    ensures DashedShape(r)
  {
    if s == [] then []
    else
      var b := Dashed(s[..|s| - 1]);
      var c := s[|s| - 1];
      if IsSlugChar(c) then b + [c]
      else if b != [] && b[|b| - 1] == '-' then b
      else b + ['-']
  }

  /** `slugify`. */
  function Slug(s: string): string {
    var t := ToLower(TrimSpace(s));
    if t == "" then "" else ReplaceAll(TrimSet(Dashed(t), {'-'}), "--", "-")
  }

  /** A contiguous piece of a dashed string is dashed. */
  lemma DashedSlice(s: string, i: nat, j: nat)
    requires DashedShape(s) && i <= j <= |s|
    ensures DashedShape(s[i..j])
  {
    assert forall k :: 0 <= k < j - i ==> s[i..j][k] == s[i + k];
  }

  /** `strings.Trim(_, "-")` of a dashed string leaves a slug-shaped one. */
  lemma TrimDashes(s: string)
    requires DashedShape(s)
    ensures SlugShaped(TrimSet(s, {'-'}))
  {
    var l := TrimLeftSet(s, {'-'});
    DashedSlice(s, |s| - |l|, |s|);
    var r := TrimRightSet(l, {'-'});
    DashedSlice(l, 0, |r|);
  }

  /** A dashed string has no `--` for `strings.ReplaceAll` to find. */
  lemma DashedHasNoDoubleDash(s: string)
    requires DashedShape(s)
    ensures !Contains(s, "--")
  {
    forall i | 0 <= i && i + 2 <= |s|
      ensures !OccursAt(s, "--", i)
    {
      assert s[i..i + 2][0] == s[i] && s[i..i + 2][1] == s[i + 1];
    }
    assert IndexOf(s, "--") == -1;
  }

  /** `slugify`'s output is a slug: `a-z`, `0-9` and single inner dashes only. */
  lemma SlugIsSlug(s: string)
    ensures SlugShaped(Slug(s))
  {
    var t := ToLower(TrimSpace(s));
    if t != "" {
      TrimDashes(Dashed(t));
      DashedHasNoDoubleDash(TrimSet(Dashed(t), {'-'}));
      ReplaceAllAbsent(TrimSet(Dashed(t), {'-'}), "--", "-");
    }
  }

  /** Slug characters survive slugify unchanged: a lower-case slug is its own slug. */
  lemma {:induction false} DashedOfSlug(s: string)
    requires forall i :: 0 <= i < |s| ==> IsSlugChar(s[i])
    ensures Dashed(s) == s
  {
    if s != [] {
      DashedOfSlug(s[..|s| - 1]);
    }
  }

  /** The `slugify` loop: the builder and the `lastDash` flag, then the trim and the `--` sweep. */
  method Slugify(s: string) returns (out: string)
    ensures out == Slug(s)
  {
    var t := ToLower(TrimSpace(s));
    if t == "" {
      return "";
    }
    var b := "";
    var lastDash := false;
    for i := 0 to |t|
      invariant b == Dashed(t[..i])
      invariant lastDash <==> b != [] && b[|b| - 1] == '-'
    {
      assert t[..i + 1][..i] == t[..i];
      var r := t[i];
      if 'a' <= r <= 'z' {
        b := b + [r];
        lastDash := false;
      } else if '0' <= r <= '9' {
        b := b + [r];
        lastDash := false;
      } else if r == ' ' || r == '_' || r == '-' || r == '.' {
        if !lastDash {
          b := b + ['-'];
          lastDash := true;
        }
      } else {
        if !lastDash {
          b := b + ['-'];
          lastDash := true;
        }
      }
    }
    assert t[..|t|] == t;
    out := TrimSet(b, {'-'});
    out := ReplaceAll(out, "--", "-");
  }

  // ---- The store and `SaveRun` ----

  /**
   * A `JSONStore`. `now` is the instant its clock reports when `SaveRun`
   * asks (the system clock's, or the one `WithNow` installed).
   */
  datatype JsonStore = JsonStore(rootDir: string, runsDirName: string, maskingEnabled: bool,
                                 writeIndex: bool, now: Instant)

  datatype StoreOption = WithIndex(enabled: bool) | WithNow(now: Instant)

  /** One option applied to the store. */
  function ApplyOption(s: JsonStore, opt: StoreOption): (r: JsonStore)
    ensures opt.WithIndex? ==> r == s.(writeIndex := opt.enabled)
    ensures opt.WithNow? ==> r == s.(now := opt.now)
  {
    match opt
    case WithIndex(enabled) => s.(writeIndex := enabled)
    case WithNow(now) => s.(now := now)
  }

  /** The store `NewJSONStore` begins with, before its options. */
  function BaseStore(root: string, cfg: Config, systemNow: Instant): (r: JsonStore)
    ensures r.rootDir == root && r.maskingEnabled == cfg.masking.enabled && !r.writeIndex && r.now == systemNow
    ensures r.runsDirName == if IsBlank(cfg.paths.runsDir) then DefaultRunsDir else cfg.paths.runsDir
  {
    var runsDir := if TrimSpace(cfg.paths.runsDir) == "" then DefaultRunsDir else cfg.paths.runsDir;
    JsonStore(root, runsDir, cfg.masking.enabled, false, systemNow)
  }

  /** The options applied in order. */
  function Configured(s: JsonStore, opts: seq<StoreOption>): JsonStore
    decreases |opts|
  {
    if opts == [] then s else Configured(ApplyOption(s, opts[0]), opts[1..])
  }

  /** Options touch only the index flag and the clock: root, directory and masking come from the config. */
  lemma {:induction false} ConfiguredKeeps(s: JsonStore, opts: seq<StoreOption>)
    ensures var r := Configured(s, opts);
      r.rootDir == s.rootDir && r.runsDirName == s.runsDirName && r.maskingEnabled == s.maskingEnabled
    ensures (forall i :: 0 <= i < |opts| ==> opts[i].WithNow?) ==> Configured(s, opts).writeIndex == s.writeIndex
    ensures (forall i :: 0 <= i < |opts| ==> opts[i].WithIndex?) ==> Configured(s, opts).now == s.now
    decreases |opts|
  {
    if opts != [] {
      ConfiguredKeeps(ApplyOption(s, opts[0]), opts[1..]);
    }
  }

  /** `NewJSONStore`: the config's directory (or `runs`) and masking flag, then the options in order. */
  method NewJsonStore(root: string, cfg: Config, systemNow: Instant, opts: seq<StoreOption>) returns (s: JsonStore)
    ensures s == Configured(BaseStore(root, cfg, systemNow), opts)
  {
    s := BaseStore(root, cfg, systemNow);
    for i := 0 to |opts|
      invariant Configured(BaseStore(root, cfg, systemNow), opts) == Configured(s, opts[i..])
    {
      assert opts[i..][1..] == opts[i + 1..];
      s := ApplyOption(s, opts[i]);
    }
  }

  /**
   * The effects `SaveRun` performs: creating the directory, encoding, writing
   * the temporary file and renaming it (a `Some` is the error each returned),
   * and formatting an instant in UTC with the layout `20060102T150405Z`.
   */
  datatype Host = Host(
    mkdirAll: string -> Option<Error>,
    marshalIndent: RunResult -> Result<seq<byte>, Error>,
    writeFile: (string, seq<byte>) -> Option<Error>,
    rename: (string, string) -> Option<Error>,
    format: Instant -> string)

  /** The instant the file is named after: the run's start, or the store's clock when that is zero. */
  function StartTime(s: JsonStore, run: RunResult): (r: Instant)
    ensures run.startedAt.Instant? ==> r == run.startedAt
    ensures run.startedAt.ZeroInstant? ==> r == s.now
  {
    if run.startedAt.ZeroInstant? then s.now else run.startedAt
  }

  /** What the file name is built from: the collection's name, or its file name without extension. */
  function CollectionPart(run: RunResult): (r: string)
    ensures !IsBlank(run.collectionName) ==> r == run.collectionName
    ensures IsBlank(run.collectionName) ==> r == TrimSuffix(Base(run.collectionPath), Ext(run.collectionPath))
  {
    if TrimSpace(run.collectionName) == "" then Stem(run.collectionPath) else run.collectionName
  }

  /** The slug of the name, or `run` when it has none. */
  function FileSlug(part: string): (r: string)
    ensures r != "" && SlugShaped(r)
    ensures Slug(part) != "" ==> r == Slug(part)
  {
    SlugIsSlug(part);
    var slug := Slug(part);
    if slug == "" then "run" else slug
  }

  function FileName(host: Host, s: JsonStore, run: RunResult): string {
    host.format(StartTime(s, run)) + "_" + FileSlug(CollectionPart(run)) + ".json"
  }

  function RunId(host: Host, s: JsonStore, run: RunResult): string {
    TrimSuffix(FileName(host, s, run), ".json")
  }

  /** The id is `<stamp>_<slug>` and the file name is the id with `.json` after it. */
  lemma RunIdShape(host: Host, s: JsonStore, run: RunResult)
    ensures RunId(host, s, run) == host.format(StartTime(s, run)) + "_" + FileSlug(CollectionPart(run))
    ensures FileName(host, s, run) == RunId(host, s, run) + ".json"
  {
    var f := FileName(host, s, run);
    var id := host.format(StartTime(s, run)) + "_" + FileSlug(CollectionPart(run));
    assert f == id + ".json";
    assert f[|f| - 5..] == ".json";
  }

  /** The artifact that is encoded: a zero start filled in from the clock, then masked if masking is on. */
  function Artifact(s: JsonStore, run: RunResult): (r: RunResult)
    ensures s.maskingEnabled ==> r == Masked(run.(startedAt := StartTime(s, run)))
    ensures !s.maskingEnabled ==> r == run.(startedAt := StartTime(s, run))
  {
    var toSave := if run.startedAt.ZeroInstant? then run.(startedAt := StartTime(s, run)) else run;
    if s.maskingEnabled then Masked(toSave) else toSave
  }

  /** A failed store step: an execution error naming the step and the path. */
  function StoreError(op: string, path: string, e: Option<Error>): (r: Error)
    ensures KindOf(r) == Some(Execution)
  {
    OpErrorKind(op, Execution, path, e, Execution);
    OpError(op, Execution, path, e)
  }

  /**
   * The write sequence of `SaveRun` once the names are known: make the
   * directory, encode the artifact, write it beside `path` and rename it into
   * place; each failing step gives its own operation and path.
   */
  function Store(host: Host, dir: string, path: string, artifact: RunResult, id: string): (r: Result<string, Error>)
    ensures r.Ok? <==>
      host.mkdirAll(dir).None? && host.marshalIndent(artifact).Ok?
      && host.writeFile(path + ".tmp", host.marshalIndent(artifact).value).None?
      && host.rename(path + ".tmp", path).None?
    ensures r.Ok? ==> r.value == id
    ensures r.Err? ==> KindOf(r.error) == Some(Execution)
  {
    if host.mkdirAll(dir).Some? then Err(StoreError("runstore.mkdir", dir, host.mkdirAll(dir)))
    else
      match host.marshalIndent(artifact)
      case Err(e) => Err(StoreError("runstore.marshal", path, Some(e)))
      case Ok(bytes) =>
        var tmp := path + ".tmp";
        if host.writeFile(tmp, bytes).Some? then Err(StoreError("runstore.write", tmp, host.writeFile(tmp, bytes)))
        else if host.rename(tmp, path).Some? then Err(StoreError("runstore.rename", path, host.rename(tmp, path)))
        else Ok(id)
  }

  /** `SaveRun`: the directory `<root>/<runs>`, the file `<id>.json` in it, the artifact. */
  function SaveRun(s: JsonStore, host: Host, run: RunResult): Result<string, Error> {
    var dir := Join2(s.rootDir, s.runsDirName);
    Store(host, dir, Join2(dir, FileName(host, s, run)), Artifact(s, run), RunId(host, s, run))
  }

  /**
   * A run is saved exactly when the directory is made and the artifact is
   * encoded, written to a temporary file and renamed into
   * `<root>/<runs>/<id>.json`; every failure is an execution error.
   */
  lemma SaveRunSucceeds(s: JsonStore, host: Host, run: RunResult)
    ensures var dir := Join2(s.rootDir, s.runsDirName);
            var path := Join2(dir, RunId(host, s, run) + ".json");
            var r := SaveRun(s, host, run);
      (r.Ok? <==>
        host.mkdirAll(dir).None? && host.marshalIndent(Artifact(s, run)).Ok?
        && host.writeFile(path + ".tmp", host.marshalIndent(Artifact(s, run)).value).None?
        && host.rename(path + ".tmp", path).None?)
      && (r.Err? ==> KindOf(r.error) == Some(Execution))
  {
    RunIdShape(host, s, run);
  }

  /** A saved run's id is `<stamp>_<slug>`, named after its start (or the clock) and its collection. */
  lemma SaveRunId(s: JsonStore, host: Host, run: RunResult)
    requires SaveRun(s, host, run).Ok?
    ensures SaveRun(s, host, run).value == host.format(StartTime(s, run)) + "_" + FileSlug(CollectionPart(run))
  {
    RunIdShape(host, s, run);
  }
}
