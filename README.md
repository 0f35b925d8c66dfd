# lynix, modelled in Dafny

lynix is a command-line HTTP collection runner. A workspace (found by walking up to `lynix.yaml`) holds YAML collections of requests and YAML environments of variables. `lynix run` resolves each request's `{{name}}` placeholders against a variable scope, sends the request, and checks the response with assertions (status, latency and JSONPath checks). Extraction rules turn parts of the response into variables that later requests see. The run is reported, and optionally saved as a JSON artifact with sensitive values masked. `lynix validate` resolves every request without sending anything. A text UI turns errors into one-line messages and renders results.

This project models that core in Dafny 4.11, one module per Go source file, plus shared modules for the parts of Go's standard library the core relies on:

| module | file | models |
|---|---|---|
| `Common` | common.dfy | `Option`, `Result` |
| `Text` | text.dfy | `strings`, `strconv`, `unicode/utf8` as the core uses them |
| `Paths` | paths.dfy | `path/filepath` on Unix |
| `Errors` | errors.dfy | `internal/domain/errors.go` |
| `Json` | json.dfy | decoded JSON values and the functions of `encoding/json`, the JSONPath package, `regexp` and float formatting, passed in as a `JsonLib` value |
| `Domain` | domain.dfy | the records of `internal/domain` (collections, requests, results, configuration) |
| `Resolver` | resolver.dfy | `internal/domain/vars_resolver.go` |
| `Render` | render.dfy | `internal/app/template/render.go` |
| `Assertions` | assert.dfy | `internal/usecase/assert/assert.go` |
| `Ordering` | order.dfy | Go's string order and `sort.Strings` |
| `Extraction` | extract.dfy | `internal/usecase/extract/extract.go` |
| `Orchestration` | runcollection.dfy | `internal/usecase/run_collection.go` |
| `Validation` | validation.dfy | `internal/usecase/validate_collection.go` |
| `RunStore` | runstore.dfy | `internal/infra/runstore/jsonstore.go` |
| `HttpModel` | http.dfy | `net/http` header maps, `io.LimitReader` |
| `HttpRunner` | httprunner.dfy | `internal/infra/httprunner/runner.go` |
| `HttpClient` | httpclient.dfy | `internal/infra/httpclient/builder.go` |
| `ConfigMapper` | configmapper.dfy | `internal/infra/config/mapper.go` |
| `YamlCollection` | yamlcollection.dfy | `internal/infra/yamlcollection/loader.go` |
| `YamlEnv` | yamlenv.dfy | `internal/infra/yamlenv/loader.go` |
| `WorkspaceConfig` | workspaceconfig.dfy | `internal/infra/workspacefinder/config.go` |
| `WorkspaceFinder` | workspacefinder.dfy | `internal/infra/workspacefinder/finder.go` |
| `FsWorkspace` | fsworkspace.dfy | `internal/infra/fsworkspace/init.go` |
| `RunCommand` | runcmd.dfy | `internal/cli/run.go` |
| `WorkspaceArgs` | cliworkspace.dfy | `internal/cli/workspace.go` |
| `ErrorDisplay` | tuierrors.dfy | `internal/ui/tui/error_ux.go` |
| `ResultView` | tuiview.dfy | `internal/ui/tui/view_helper.go` |

Each module follows the form of its Go file:

- **Pure code** becomes functions and lemmas. This covers parsing, mapping, error messages and path logic.
- **Loops that build values** become methods whose loop invariants prove them equal to a specification function. Examples are `resolveStringWith`, `slugify`, the counting loops, the `.gitignore` builder and the upward search for the workspace.
- **Go map iteration** has no fixed order. The methods that range over a map pick keys nondeterministically (`:|`), and their contracts hold for every order. Where the order shows in the output, the contract names the order that was used.
- **Foreign libraries, the file system, the clock, randomness and the network** are function values passed in. Examples are `JsonLib`, `Host`, `Net`, the `Reading` of the clock and the UUID source, and the loaders and runner ports.

## Model

| member | source | states |
|---|---|---|
| Errors.ReceiverMessage | internal/domain/errors.go:35-43 | A nil `*Error` or `*OpError` prints `<nil>`; otherwise the error's own text (`Kind: Msg[: Cause]`, `Op: Kind[ (path=P)][: Err]`). |
| Errors.ReceiverUnwrap | internal/domain/errors.go:45-50 | `Unwrap` of a nil receiver is nil; otherwise the wrapped error (`Cause` or `Err`). |
| Errors.UnwrapSuffix | internal/domain/errors.go:60-73 | The text of every error ends with the text of the error it wraps. |
| Errors.ChainSuffix | internal/domain/errors.go:60-73 | The text of an error ends with the text of every error in its unwrap chain. |
| Errors.FirstOpError | internal/domain/errors.go:83-93 | `errors.As` for an `OpError`: none exactly when no error in the chain is an `OpError`; otherwise the first one in the chain. |
| Errors.FirstDomainError | internal/domain/errors.go:83-93 | `errors.As` for a domain `Error`: none exactly when the chain holds none; otherwise the first domain `Error` in the chain, with none before it. |
| Errors.KindOf | internal/domain/errors.go:83-93 | `IsKind(e, k)` holds exactly for the kind returned: the first `OpError` decides, then the first domain `Error`, else no kind. |
| Errors.IsKindUnique | internal/domain/errors.go:83-93 | An error has at most one kind. |
| Errors.WrappedKeepsKind | internal/domain/errors.go:83-93 | Wrapping an error with `fmt.Errorf("...%w")` keeps its kind. |
| Errors.OpErrorKind | internal/domain/errors.go:83-87 | An `OpError` has its own kind, whatever it wraps. |
| Errors.LeafHasNoKind | internal/domain/errors.go:92 | A plain error has no kind. |
| Errors.KindNameInjective | internal/domain/errors.go:20-26 | Distinct kinds have distinct string values. |
| Resolver.ScanWithoutPlaceholder | internal/domain/vars_resolver.go:225-227 | The early return for a string without `{{` gives what the scan would give: the string unchanged. |
| Resolver.ResolveIsScan | internal/domain/vars_resolver.go:223-279 | Resolving a string is the left-to-right scan, with or without the shortcut. |
| Resolver.Scan | internal/domain/vars_resolver.go:229-278 | The scan ends in success or in an unclosed-placeholder, empty-name or missing-variable error. |
| Resolver.Placeholder | internal/domain/vars_resolver.go:238-267 | An unclosed `{{` or an empty trimmed name is invalid config; an unknown name is a missing variable; otherwise the value, with the scan resuming right after `}}`. |
| Resolver.PlaceholderAt | internal/domain/vars_resolver.go:269-275 | A placeholder is replaced by its value, which is not rescanned, and the scan resumes after its `}}`. |
| Resolver.Lookup | internal/domain/vars_resolver.go:257-267 | A name is found exactly when it is a built-in or a variable, and a built-in wins over a variable of the same name. |
| Resolver.ResolveStringWith | internal/domain/vars_resolver.go:223-279 | The builder loop returns exactly what the scan specifies. |
| Resolver.ReadPlaceholder | internal/domain/vars_resolver.go:238-267 | Reading one placeholder gives the value and resume position of `Placeholder`, or its error. |
| Resolver.ResolveString | internal/domain/vars_resolver.go:83-85 | `ResolveString` is `resolveStringWith` over this runtime's variables and built-ins. |
| Resolver.ResolveHeaders | internal/domain/vars_resolver.go:88-98 | Success keeps exactly the input keys, each value resolved; a failure is the error of a value that does not resolve. |
| Resolver.ResolveJsonValue | internal/domain/vars_resolver.go:190-221 | Success replaces each string leaf by its resolved text; failure is the error of a failing string leaf. |
| Resolver.ResolvedSameShape | internal/domain/vars_resolver.go:190-221 | Resolution keeps map keys, list lengths and order, and every number, bool and null. |
| Resolver.ResolveBodySpec | internal/domain/vars_resolver.go:104-156 | Only the payload of the body's own type is resolved; the type and content type are kept; missing payloads pass through. |
| Resolver.ResolveRequest | internal/domain/vars_resolver.go:160-186 | URL, then headers (nil becomes empty), then body; the first failure comes back wrapped with its field name. |
| Resolver.WrapField | internal/domain/vars_resolver.go:281-288 | The wrapped error is an `OpError` whose message starts with the field name and wraps the original. |
| Resolver.WrapFieldKind | internal/domain/vars_resolver.go:290-296 | The wrapped error keeps the original `OpError`'s kind, or is an execution error when there is none. |
| Resolver.KindFrom | internal/domain/vars_resolver.go:290-296 | The kind of the first `OpError` in the chain, else execution. |
| Resolver.ResolveErrorKind | internal/domain/vars_resolver.go:238-267 | Every error from resolving a string is an `OpError` of kind invalid-config or missing-variable. |
| Resolver.NewRuntime | internal/domain/vars_resolver.go:54-79 | A UUID failure is an execution error; otherwise the runtime copies the variables and fixes `$timestamp` and `$uuid` from one reading. |
| Resolver.UuidPlaceholder | internal/domain/vars_resolver.go:55-78 | Every `{{$uuid}}` in a runtime resolves to the same reading's UUID, even when the variables define `$uuid`. |
| Resolver.TimestampPlaceholder | internal/domain/vars_resolver.go:55-78 | Every `{{$timestamp}}` in a runtime resolves to the same clock reading, in decimal. |
| Resolver.UuidV4 | internal/domain/vars_resolver.go:299-322 | A random-source failure is passed on; otherwise the 8-4-4-4-12 hex text of the random bytes with version 4 and variant 10 set: dashes at 8, 13, 18 and 23, a lower-case hex digit at every other position, `4` at 14 and one of `89ab` at 19. |
| Resolver.UuidTextLayout | internal/domain/vars_resolver.go:316-321 | The text is 36 characters with dashes at positions 8, 13, 18 and 23 and lower-case hex digits elsewhere; positions 14 and 19 hold the high nibbles of bytes 6 and 8. |
| Resolver.Versioned | internal/domain/vars_resolver.go:305-308 | Only bytes 6 and 8 change: byte 6 gets high nibble 4 and keeps its low nibble, byte 8 gets top bits 10 and keeps its low six bits. |
| Resolver.UnhexHex | internal/domain/vars_resolver.go:316-321 | Decoding `hex.Encode`'s text gives the bytes back. |
| Resolver.ParseUuidText | internal/domain/vars_resolver.go:316-321 | The UUID text of 16 bytes determines them: reading the hex groups back gives the bytes. |
| Resolver.UuidV4KeepsRandom | internal/domain/vars_resolver.go:299-322 | The UUID keeps every random bit except the top four of byte 6 and the top two of byte 8. |
| Render.RenderString | internal/app/template/render.go:12-56 | The jump-to-the-next-`{{` loop returns what `Rendered` specifies. |
| Render.RenderEmpty | internal/app/template/render.go:13-15 | An empty template renders to "" with no error. |
| Render.RenderVerbatim | internal/app/template/render.go:20-24 | A template without `{{` renders to itself. |
| Render.Expression | internal/app/template/render.go:29-51 | An unclosed `{{` or a blank key is invalid config; an unknown key is a missing variable; otherwise the key's value and the text after `}}`. |
| Render.RenderedErrors | internal/app/template/render.go:29-51 | Rendering fails only with one of those three errors. |
| Render.RenderErrorKind | internal/app/template/render.go:29-51 | Malformed templates have kind invalid-config; undefined keys have kind missing-variable. |
| Render.RenderedAt | internal/app/template/render.go:26 | The text before a `{{` is copied, and the value is inserted without being rescanned. |
| Render.RenderAgreesWithResolve | internal/app/template/render.go:12-56 | `RenderString` and the resolver's scan with no built-ins agree: the same text on success, an error of the same kind on failure. |
| Render.RenderedMatchesScan | internal/app/template/render.go:12-56 | From any position, rendering the rest of the template and scanning it agree. |
| Assertions.Status | internal/usecase/assert/assert.go:14-28 | The result is named `status` and passes exactly when the status equals the expected one; a pass says `status G`, a failure `expected status E, got G`. |
| Assertions.MaxLatency | internal/usecase/assert/assert.go:30-44 | The result is named `max_ms` and passes exactly when the latency is at most the bound, the bound included; a pass says `latency Mms <= Nms`, a failure `expected latency <= Nms, got Mms`. |
| Assertions.StatusFailureMessage | internal/usecase/assert/assert_test.go:21-29 | A status of 500 where 200 was expected fails with `expected status 200, got 500`. |
| Assertions.LatencyFailureMessage | internal/usecase/assert/assert_test.go:57-65 | A latency of 250 ms against a bound of 100 ms fails with `expected latency <= 100ms, got 250ms`. |
| Assertions.CheckExists | internal/usecase/assert/assert.go:102-122 | Passes exactly when the lookup succeeded and selected a value that is not nil, "", [] or {}. |
| Assertions.CheckEq | internal/usecase/assert/assert.go:124-152 | Fails on a lookup error or a null; otherwise passes exactly when the value as text equals the expected text. |
| Assertions.CheckContains | internal/usecase/assert/assert.go:154-182 | Fails on a lookup error or a null; otherwise passes exactly when the value as text contains the operand. |
| Assertions.CheckMatches | internal/usecase/assert/assert.go:184-220 | Fails on a lookup error, a null or a pattern that does not compile; otherwise passes exactly when the pattern matches the value as text. |
| Assertions.CheckGt | internal/usecase/assert/assert.go:222-250 | Passes exactly when the lookup succeeded and the value is a number, or a string that parses as one, above the threshold. |
| Assertions.CheckLt | internal/usecase/assert/assert.go:252-280 | Passes exactly when the lookup succeeded and the value is a number, or a string that parses as one, below the threshold. |
| Assertions.ToText | internal/usecase/assert/assert.go:282-295 | Fails exactly on a null; a string is its own text. |
| Assertions.ToNumber | internal/usecase/assert/assert.go:297-310 | Succeeds exactly on a number, which is itself, or on a string the library parses as one. |
| Assertions.RequestedInOrder | internal/usecase/assert/assert.go:79-100 | An expression asks for exactly the checks it sets, each once, in the order exists, eq, contains, matches, gt, lt; `exists: false` alone asks for none. |
| Assertions.ChecksNamed | internal/usecase/assert/assert.go:79-100 | The results of an expression carry the requested checks' names in the same order. |
| Assertions.LookupErrorFailsAll | internal/usecase/assert/assert.go:79-100 | A failed lookup fails every check of the expression. |
| Assertions.Evaluate | internal/usecase/assert/assert.go:48-77 | The result is the status and latency results, then every expression's checks in the order the map was visited. |
| Assertions.EvaluationShape | internal/usecase/assert/assert.go:51-77 | Status first (if set), then latency (if set); with no JSONPath rules that is all; with a body that is not JSON every later result fails. |
| Assertions.NotJsonFailsAll | internal/usecase/assert/assert.go:62-69 | A body that is not JSON fails every JSONPath check. |
| Assertions.PathResultsCount | internal/usecase/assert/assert.go:64-75 | The JSONPath part holds exactly as many results as the rules ask for, whatever the order. |
| Assertions.PathChecks | internal/usecase/assert/assert.go:64-75 | The two `range` loops give the checks of the expressions in the order they visited them. |
| Ordering.SortedUnique | internal/usecase/extract/extract.go:28 | Two strictly sorted sequences with the same elements are equal, so the sorted key order is unique. |
| Ordering.BeforeTotal | internal/usecase/extract/extract.go:28 | Go's string order is total: of two different strings, one comes first. |
| Ordering.BeforeTransitive | internal/usecase/extract/extract.go:28 | Go's string order is transitive. |
| Ordering.Insert | internal/usecase/extract/extract.go:24-28 | Inserting a key into a sorted sequence keeps it strictly sorted and adds exactly that key. |
| Extraction.ToString | internal/usecase/extract/extract.go:122-153 | A value wrapped in one-element lists has the text of the value inside: a string is itself, a boolean `true` or `false`, a number its float formatting, null `<nil>`, an object or a list of two or more its JSON marshalling (or the marshaller's failure); the empty list is an error. |
| Extraction.ToStringUnwraps | internal/usecase/extract/extract.go:124-129 | Any number of singleton lists around a value leave its text unchanged. |
| Extraction.Value | internal/usecase/extract/extract.go:47-93 | A rule gives its variable a value exactly when the body is JSON, the trimmed expression is non-blank, the lookup succeeds with a non-empty value and that value converts to text; the value is that text. |
| Extraction.Outcome | internal/usecase/extract/extract.go:47-93 | The report names the rule and succeeds exactly when the variable gets a value, the one `Value` gives. |
| Extraction.SortedKeys | internal/usecase/extract/extract.go:24-28 | The names come out strictly sorted, each rule's name once. |
| Extraction.Apply | internal/usecase/extract/extract.go:19-96 | Empty rules give nothing; a body that is not JSON fails every rule; otherwise the reports and variables of the rules in sorted order. |
| Extraction.ApplyMeans | internal/usecase/extract/extract.go:24-93 | One report per rule, in name order; a variable is set exactly when its rule succeeded, to that rule's text. |
| Extraction.ExtractedMeans | internal/usecase/extract/extract.go:87-92 | A name is extracted exactly when its rule succeeded, and holds the text that rule produced. |
| Extraction.NothingFromNotJson | internal/usecase/extract/extract.go:30-42 | A body that is not JSON fails every rule and sets no variable. |
| Orchestration.MergeVars | internal/usecase/run_collection.go:112-124 | The merge has every key of either input, the environment's value where both have one. |
| Orchestration.ServeMeans | internal/usecase/run_collection.go:64-86 | A runner error gives the error-only result with the request's name, method and URL; otherwise the runner's result with assertions, extracts and extracted replaced by `Evaluate` and `Apply`. |
| Orchestration.ScopeAfterMeans | internal/usecase/run_collection.go:89-91 | The scope only grows; a key is in it exactly when it started there or was extracted; a value changes only through extraction. |
| Orchestration.LastExtractionWins | internal/usecase/run_collection.go:89-91 | A later extraction of a key overrides an earlier one. |
| Orchestration.Execute | internal/usecase/run_collection.go:36-110 | A load failure gives an empty run, id "" and that error (collection first); otherwise one result per request in order, and the store's id or error. |
| Orchestration.RunOne | internal/usecase/run_collection.go:62-94 | One iteration appends the request's result and lays what it extracted over the scope. |
| Validation.NewValidateCollection | internal/usecase/validate_collection.go:27-37 | The resolver is the last non-nil option's, else the default. |
| Validation.LastResolverWins | internal/usecase/validate_collection.go:19-25 | A later non-nil resolver option overrides earlier ones; a nil option is ignored. |
| Validation.NoResolverKeepsDefault | internal/usecase/validate_collection.go:19-25 | Without a non-nil option the default resolver stays. |
| Validation.AddExtractKeys | internal/usecase/validate_collection.go:71-75 | Each extract key absent from the scope is added as `"x"`; present keys keep their values. |
| Validation.RequestErrorKind | internal/usecase/validate_collection.go:66-68 | The error naming the failed request keeps the kind of the resolution error. |
| Validation.OutcomeMeans | internal/usecase/validate_collection.go:56-78 | The result is nil exactly when every request was reached and resolved; a resolution failure keeps its kind. |
| Validation.OutcomeStops | internal/usecase/validate_collection.go:57-68 | A request ends the validation by cancellation, by a runtime failure or by a resolution failure. |
| Validation.Execute | internal/usecase/validate_collection.go:42-79 | Load errors come back unchanged, the collection first; otherwise the outcome of the requests from the merged scope. |
| RunStore.MaskedMeans | internal/infra/runstore/jsonstore.go:165-198 | The run, the number and order of results and every field but extracted variables and headers are kept; a variable is masked exactly when its key is sensitive; a header's values all are exactly when its name is. |
| RunStore.MaskedIdempotent | internal/infra/runstore/jsonstore.go:165-198 | Masking a masked artifact changes nothing. |
| RunStore.MaskArtifact | internal/infra/runstore/jsonstore.go:165-198 | The loops compute the masked artifact; the input is a value and is not changed. |
| RunStore.MaskVars | internal/infra/runstore/jsonstore.go:178-182 | The loop masks exactly the sensitive variables. |
| RunStore.MaskHeaders | internal/infra/runstore/jsonstore.go:184-193 | The loop masks every value of a sensitive header and keeps the number of values. |
| RunStore.MaskedHeader | internal/infra/runstore/jsonstore.go:207-219 | A header's values are all replaced when its trimmed, lower-cased name is a credential header or mentions one, else kept. |
| RunStore.SlugIsSlug | internal/infra/runstore/jsonstore.go:277-312 | `slugify` output has only `a-z`, `0-9` and single inner dashes. |
| RunStore.DashedOfSlug | internal/infra/runstore/jsonstore.go:277-312 | A lower-case slug is its own slug. |
| RunStore.Slugify | internal/infra/runstore/jsonstore.go:277-312 | The builder loop with the `lastDash` flag, the trim and the `--` sweep returns `Slug`. |
| RunStore.NewJsonStore | internal/infra/runstore/jsonstore.go:38-55 | The store takes the config's runs directory (or `runs`) and masking flag, then applies the options in order. |
| RunStore.ConfiguredKeeps | internal/infra/runstore/jsonstore.go:29-36 | Options set only the index flag and the clock. |
| RunStore.StartTime | internal/infra/runstore/jsonstore.go:70-74 | The file is named after the run's start, or the clock when that is zero. |
| RunStore.CollectionPart | internal/infra/runstore/jsonstore.go:80-83 | A blank collection name falls back to the file name without its extension. |
| RunStore.FileSlug | internal/infra/runstore/jsonstore.go:84-87 | An empty slug becomes `run`. |
| RunStore.RunIdShape | internal/infra/runstore/jsonstore.go:89-90 | The id is `<stamp>_<slug>`, and the file name is the id followed by `.json`. |
| RunStore.Artifact | internal/infra/runstore/jsonstore.go:76-95 | A zero start is filled from the clock, and the artifact is masked exactly when masking is on. |
| RunStore.SaveRunSucceeds | internal/infra/runstore/jsonstore.go:59-132 | The run is saved exactly when mkdir, encoding, the temporary write and the rename succeed; each failure is an execution error naming its step and path. |
| RunStore.SaveRunId | internal/infra/runstore/jsonstore.go:70-90 | A saved run's id is named after its start (or the clock) and its collection. |
| HttpModel.CanonicalKeyIdempotent | internal/infra/httprunner/runner.go:117 | Canonicalising a canonical header name changes nothing. |
| HttpModel.GetAfterSet | internal/infra/httpclient/builder.go:84-85 | What `Header.Set` stores, `Header.Get` finds; names with another canonical form are untouched. |
| HttpModel.GetAfterSetAll | internal/infra/httpclient/builder.go:80-82 | After setting every key, a name holds the value of the last key with its canonical form, or is as it was. |
| HttpModel.SetEach | internal/infra/httprunner/runner.go:116-118 | The `Header.Set` loop over a map sets the keys in the order it chose. |
| HttpModel.ReadAtMost | internal/infra/httprunner/runner.go:176 | `io.LimitReader`: at most `n` bytes; an error only if the stream fails before the limit. |
| HttpRunner.ReadBoundedMeans | internal/infra/httprunner/runner.go:175-185 | The intended reading: the body is at most `maxBytes` long; it is truncated exactly when the stream had more, and is then its first `maxBytes` bytes, else all of it; a read error counts only before the limit. |
| HttpRunner.AddInt64 | internal/infra/httprunner/runner.go:176 | `int64` addition: the result stays in range and differs from the true sum by a multiple of 2^64 at most once. |
| HttpRunner.ReadBoundedAsWritten | internal/infra/httprunner/runner.go:175-185 | The code as written: a kept body is a prefix of the stream at most `maxBytes` long, exactly `maxBytes` when truncated. |
| HttpRunner.ReadBoundedAsWrittenAgrees | internal/infra/httprunner/runner.go:175-185 | Below the largest `int64` the code as written reads exactly as intended. |
| HttpRunner.ReadBoundedAtMaxInt64 | internal/infra/httprunner/runner.go:175-185 | At `maxBytes` = 2^63-1 the limit wraps, nothing is read, and the body is empty and not truncated whatever the stream holds. |
| HttpRunner.ReadBoundedWrapLosesBody | internal/infra/httprunner/runner.go:175-185 | A one-byte body under that limit: as written no body, as intended the whole body. |
| HttpRunner.New | internal/infra/httprunner/runner.go:36-46 | A limit of 256 KiB and the default resolver, then the options in order. |
| HttpRunner.ConfiguredKeeps | internal/infra/httprunner/runner.go:28-34 | Without a body-size option the limit stays; without a resolver option the resolver stays. |
| HttpRunner.PayloadContentType | internal/infra/httprunner/runner.go:128-160 | JSON and form bodies send their own content type if set, else the header's, else the default; a raw body's type applies only if non-empty and no header sets one; an empty raw body sends nothing. |
| HttpRunner.PreparedMeans | internal/infra/httprunner/runner.go:104-173 | A blank URL is invalid config; a built request goes to the trimmed URL with the spec's method. |
| HttpRunner.BuildHttpRequest | internal/infra/httprunner/runner.go:104-173 | The header loop and body switch build the request `Prepared` specifies, for the order the loop chose. |
| HttpRunner.CloneHeaders | internal/infra/httprunner/runner.go:187-195 | The clone has the same names and values. |
| HttpRunner.ExchangeMeans | internal/infra/httprunner/runner.go:62-97 | A transport or read failure is recorded in the result, not returned; the result names the resolved request; a body is recorded only when the exchange succeeds. |
| HttpRunner.Run | internal/infra/httprunner/runner.go:50-102 | A runtime or resolution failure returns an error with an empty result and sends nothing; otherwise the recorded exchange. |
| HttpClient.BuiltErrors | internal/infra/httpclient/builder.go:15-89 | Every failure is invalid config; a blank URL or an unknown body type wraps `ErrInvalidRequest`; a built request keeps the method and URL. |
| HttpClient.ChosenMeans | internal/infra/httpclient/builder.go:30-69 | A non-nil JSON body is its encoding with `application/json`; a non-nil form is URL-encoded with the form type; a non-blank raw body is its text with its own type; otherwise no body and no default. |
| HttpClient.BuiltBody | internal/infra/httpclient/builder.go:80-86 | The chosen body is sent; its default Content-Type applies only if non-empty and no header sets one. |
| HttpClient.BuildRequest | internal/infra/httpclient/builder.go:80-86 | The header loop builds the request `Built` specifies, for the order it chose. |
| ConfigMapper.ParseMethodMeans | internal/infra/config/mapper.go:103-117 | A method is accepted exactly when, trimmed and upper-cased, it is one of the seven, and is then that text. |
| ConfigMapper.ParseMethodIdempotent | internal/infra/config/mapper.go:103-117 | Parsing a parsed method gives it back. |
| ConfigMapper.InvalidField | internal/infra/config/mapper.go:119-126 | Validation errors have kind invalid-config and wrap `ErrInvalidConfig`. |
| ConfigMapper.SelectBody | internal/infra/config/mapper.go:59-67 | JSON first, then form, then non-blank raw, then none; the content type is always trimmed. |
| ConfigMapper.MapJsonPath | internal/infra/config/mapper.go:85-101 | Nil stays nil; otherwise the same keys, each with all six checks copied. |
| ConfigMapper.MapRequestMeans | internal/infra/config/mapper.go:24-67 | A blank method is reported before a blank URL; an accepted request keeps its name and URL, takes the parsed method and the selected body, and has nil maps made empty. |
| ConfigMapper.MappedCollectionValid | internal/infra/config/mapper.go:11-73 | Every mapped request has one of the seven methods, a non-blank URL and header maps. |
| ConfigMapper.MappedCollection | internal/infra/config/mapper.go:11-73 | A blank collection name fails on `name`; every failure is invalid config; a mapped collection keeps its name, its variables and the number of its requests. |
| ConfigMapper.MappedCollectionFirstError | internal/infra/config/mapper.go:18-70 | With a non-blank name, a failure is exactly the error of some request whose mapping fails while every earlier request maps. |
| ConfigMapper.MapCollection | internal/infra/config/mapper.go:11-73 | The loop returns `MappedCollection`, stopping at the first invalid request. |
| ConfigMapper.MapRequests | internal/infra/config/mapper.go:18-70 | The request loop returns the requests mapped in order, or the error of the first request that does not map. |
| ConfigMapper.MapEnvironment | internal/infra/config/mapper.go:75-83 | Never fails; named after the file name without extension; nil vars become empty. |
| YamlCollection.InvalidFieldNotWrapped | internal/infra/yamlcollection/loader.go:238-245 | This loader's validation errors have kind invalid-config but do not wrap `ErrInvalidConfig`. |
| YamlCollection.MapJsonPath | internal/infra/yamlcollection/loader.go:211-220 | Nil stays nil; otherwise the same keys, with only `exists` copied. |
| YamlCollection.MapRequestMeans | internal/infra/yamlcollection/loader.go:159-203 | Name, then URL, then method are checked in that order; an accepted request takes the selected body and empty maps for nil ones. |
| YamlCollection.MappedCollection | internal/infra/yamlcollection/loader.go:145-209 | A blank collection name fails on `name`; every failure is invalid config; a mapped collection keeps its name, its variables and the number of its requests. |
| YamlCollection.MappedCollectionOrder | internal/infra/yamlcollection/loader.go:156-206 | A mapped collection keeps the count and order of its requests. |
| YamlCollection.MappedCollectionFirstError | internal/infra/yamlcollection/loader.go:146-206 | With a non-blank name, a failure is exactly the error of some request whose mapping fails while every earlier request maps. |
| YamlCollection.MapAndValidate | internal/infra/yamlcollection/loader.go:145-209 | The loop returns `MappedCollection`, stopping at the first invalid request. |
| YamlCollection.MapRequests | internal/infra/yamlcollection/loader.go:156-206 | The request loop returns the requests mapped in order, or the error of the first request that does not map. |
| YamlCollection.LoadCollectionMeans | internal/infra/yamlcollection/loader.go:35-62 | An unreadable file is not found; a document that does not decode or validate is invalid config; otherwise the mapped collection. |
| YamlEnv.NewLoader | internal/infra/yamlenv/loader.go:30-40 | Directory `env` and secrets file `secrets.local.yaml`, then the options in order. |
| YamlEnv.ConfiguredLast | internal/infra/yamlenv/loader.go:22-28 | The last option for a setting has the final say. |
| YamlEnv.EnvTarget | internal/infra/yamlenv/loader.go:49-55 | A path argument is cleaned and named after its file name without extension; a name is looked up as `root/envDir/<name>.yaml`. |
| YamlEnv.TargetNameIsFileName | internal/infra/yamlenv/loader.go:49-52 | The environment's name holds no separator. |
| YamlEnv.ReadVars | internal/infra/yamlenv/loader.go:87-113 | A missing file is not found; a bad document is invalid config; an absent `vars` is empty. |
| YamlEnv.ReadVarsOptional | internal/infra/yamlenv/loader.go:115-134 | A secrets file that does not exist is an empty overlay without error; a failed stat is an execution error; an existing file reads like any variables file. |
| YamlEnv.LoadFromMeans | internal/infra/yamlenv/loader.go:69-75 | The merged variables are the base ones overridden per key by the secrets. |
| YamlEnv.LoadEnvironment | internal/infra/yamlenv/loader.go:45-81 | The loader method returns `Loaded`: the target's variables overlaid with its secrets. |
| WorkspaceConfig.OverlayDefaults | internal/infra/workspacefinder/config.go:13 | A document that sets nothing gives `DefaultConfig`, and every string setting stays non-empty. |
| WorkspaceConfig.Override | internal/infra/workspacefinder/config.go:40-51 | A string setting is overridden only by a non-empty value. |
| WorkspaceConfig.OverlayOfConfig | internal/infra/workspacefinder/config.go:37-51 | A configuration written back as a document and overlaid comes back unchanged. |
| WorkspaceConfig.LoadConfig | internal/infra/workspacefinder/config.go:12-54 | A missing file is not found with the defaults beside it; a bad document is invalid config; otherwise the overlay. |
| WorkspaceFinder.FoundMeans | internal/infra/workspacefinder/finder.go:20-62 | An empty start is invalid config; a file start searches from its directory; the search runs from the cleaned absolute start. |
| WorkspaceFinder.FirstHoldingFinds | internal/infra/workspacefinder/finder.go:44-49 | A found root is the first directory of the upward walk, the start included, that holds the file. |
| WorkspaceFinder.FirstHoldingFails | internal/infra/workspacefinder/finder.go:51-59 | The search is not found exactly when no directory up to the root holds the file. |
| WorkspaceFinder.ParentLower | internal/infra/workspacefinder/finder.go:51-60 | Each step to a different parent lowers the height measure, so the loop ends. |
| WorkspaceFinder.FindRoot | internal/infra/workspacefinder/finder.go:44-60 | The loop returns `Search`. |
| FsWorkspace.GitignoreMeans | internal/infra/fsworkspace/init.go:73-131 | A missing file gets the fresh content; an existing one is left alone exactly when every entry is one of its trimmed lines; otherwise it gets the update. |
| FsWorkspace.FreshContentLines | internal/infra/fsworkspace/init.go:84-89 | A fresh file is the header and the four entries, one per line, ending with a newline. |
| FsWorkspace.AddedMeans | internal/infra/fsworkspace/init.go:103-108 | The header is added exactly when absent, then every missing entry and no other. |
| FsWorkspace.AddedInOrder | internal/infra/fsworkspace/init.go:121-128 | Missing entries are appended in their declared order. |
| FsWorkspace.AppendedLines | internal/infra/fsworkspace/init.go:116-128 | The update begins with the existing text; its lines are the existing ones, a blank line, then the added ones. |
| FsWorkspace.AppendedAfterText | internal/infra/fsworkspace/init.go:117-120 | A newline is added before the blank line when the existing text lacks one. |
| FsWorkspace.UpdatePresent | internal/infra/fsworkspace/init.go:93-128 | After an update every entry, the header and every old line are present. |
| FsWorkspace.GitignoreIdempotent | internal/infra/fsworkspace/init.go:93-111 | Running again on what was written changes nothing. |
| FsWorkspace.EnsureGitignore | internal/infra/fsworkspace/init.go:73-131 | The loops and builder return `Gitignore`. |
| FsWorkspace.Mode | internal/infra/fsworkspace/init.go:64-67 | A template is written 0600 exactly when its lower-cased path contains `secrets`, else 0644. |
| FsWorkspace.ModeIgnoresCase | internal/infra/fsworkspace/init.go:64-67 | Paths that differ only in letter case get the same mode. |
| FsWorkspace.TemplateWritesMeans | internal/infra/fsworkspace/init.go:38-70 | A file template is written exactly when `force` is set or its target is missing, with its data and mode; directories are skipped. |
| FsWorkspace.WriteTemplates | internal/infra/fsworkspace/init.go:38-70 | The walk collects exactly `TemplateWrites`. |
| RunCommand.IsRequestFailed | internal/cli/run.go:172-187 | A request failed exactly when it has an error, a failed assertion or a failed extract. |
| RunCommand.CountFailures | internal/cli/run.go:162-170 | The count is the number of failed requests. |
| RunCommand.FailureCountMeans | internal/cli/run.go:162-170 | The count is at most the number of results, and is zero exactly when no request failed. |
| RunCommand.CountAssertionPassFail | internal/cli/run.go:189-198 | pass + fail is the number of assertions, and pass is the number that passed. |
| RunCommand.CountExtractPassFail | internal/cli/run.go:200-209 | ok + bad is the number of extracts, and ok is the number that succeeded. |
| RunCommand.RequestFailedByCounts | internal/cli/run.go:172-209 | A request failed exactly when it has an error or its pass or ok count is below its length. |
| RunCommand.OutputFormat | internal/cli/run.go:78-95 | `json` and `pretty` are accepted, "" as pretty; anything else is an error naming the format. |
| RunCommand.OutputFormatNamesIt | internal/cli/run.go:93 | Two unsupported formats give two different errors. |
| RunCommand.StatusLabel | internal/cli/run.go:114-117 | The label is `FAIL` exactly when the request failed. |
| RunCommand.CommandErrorMeans | internal/cli/run.go:48-63 | An execution error is returned as it is; otherwise the command fails exactly when some request failed, with the failure count. |
| WorkspaceArgs.LooksLikePath | internal/cli/workspace.go:169-171 | True exactly when the argument contains a separator. |
| WorkspaceArgs.HasYamlExtMeans | internal/cli/workspace.go:173-176 | True exactly when the lower-cased argument ends in `.yaml` or `.yml`. |
| WorkspaceArgs.EnvironmentArg | internal/cli/workspace.go:139-167 | A blank argument is the configured default environment. |
| WorkspaceArgs.EnvironmentArgForLoader | internal/cli/workspace.go:146-166 | A path or YAML-named argument reaches the loader as a path: a path under the root, cleaned, or `root/envDir/<arg>`; a plain name reaches it as that name. |
| WorkspaceArgs.UnderRoot | internal/cli/workspace.go:98-104 | A relative path is joined to the root, then cleaned; under an absolute root the result is absolute. |
| WorkspaceArgs.CollectionPathMeans | internal/cli/workspace.go:91-137 | A blank argument is the error `collection is required`; a path is resolved under the root; a name is the first existing candidate, else a listed collection of that name (case-insensitive), else `not found`. |
| WorkspaceArgs.CandidatesProbed | internal/cli/workspace.go:109-124 | The candidates are probed in order: the name with its own YAML extension, then `.yaml`, then `.yml`. |
| WorkspaceArgs.MatchByNameMeans | internal/cli/workspace.go:127-134 | The listing match is the first collection whose name folds equal to the argument. |
| WorkspaceArgs.ResolveCollectionPath | internal/cli/workspace.go:91-137 | The probes and the listing loop return `CollectionPath`. |
| WorkspaceArgs.WorkspaceRootMeans | internal/cli/workspace.go:68-89 | A flag gives its absolute path; a working-directory failure keeps its kind; a found root holds `lynix.yaml`; a failed search is not found. |
| ErrorDisplay.UserMessage | internal/ui/tui/error_ux.go:14-79 | The message is empty exactly when there is no error. |
| ErrorDisplay.UserMessageByKind | internal/ui/tui/error_ux.go:19-59 | The first `OpError` in the chain decides: not found gives one of the four not-found messages, a missing variable names the variable when it can, invalid-request and execution errors show `Unexpected error (see logs)`; without an `OpError`, a YAML-looking message shows the YAML line and any other non-missing-variable message is unexpected. |
| ErrorDisplay.NotFoundShown | internal/ui/tui/error_ux.go:23-33 | The loaders' not-found errors show `Collection not found`, `Environment not found` and `Workspace not found`. |
| ErrorDisplay.InvalidConfigShown | internal/ui/tui/error_ux.go:42-56 | An invalid-config error shows `Invalid YAML at <file> line N`, `Invalid YAML at <file>` or `Invalid config`. |
| ErrorDisplay.MissingVarMessage | internal/ui/tui/error_ux.go:35-40 | `Missing variable <name>`, or `Missing variable` when no name is found. |
| ErrorDisplay.ResolverMissingShown | internal/ui/tui/error_ux.go:35-40 | The resolver's `missing variable: <name>` error shows `Missing variable <name>`. |
| ErrorDisplay.LooksLikeYamlProblemMeans | internal/ui/tui/error_ux.go:81-84 | True exactly when the lower-cased text contains `yaml:`, `did not find expected` or `cannot unmarshal`. |
| ErrorDisplay.ExtractLineMeans | internal/ui/tui/error_ux.go:86-92 | The line number is "" exactly when the text has no match of `(?i)\bline\s+(\d+)\b`; otherwise the digits of the leftmost match. |
| ErrorDisplay.ExtractMissingVarName | internal/ui/tui/error_ux.go:94-116 | For text where a word follows the marker: the first word after the last `missing variable:` (else `missing variable `), trimmed of ` .,:;"'`. |
| ErrorDisplay.MissingVarName | internal/ui/tui/error_ux.go:94-116 | The corrected extraction: the same name, and "" when no word follows the marker. |
| ErrorDisplay.MissingVarNameAsWritten | internal/ui/tui/error_ux.go:94-116 | Wherever the Go code does not panic, the corrected extraction returns what it returns. |
| ErrorDisplay.NameExtractionPanics | internal/ui/tui/error_ux.go:101 | The error text `missing variable:` reaches the name extraction with no word after the marker. |
| ErrorDisplay.ResolverDotPanics | internal/domain/vars_resolver.go:262-266 | The resolver's error for an undefined `{{ . }}` reaches the name extraction with nothing left after trimming the `.`; the corrected message is `Missing variable`. |
| ErrorDisplay.ResolverNothingAfterMarker | internal/ui/tui/error_ux.go:94-116 | Any resolver error whose name the cut set trims away reaches the name extraction with no word to index. |
| ResultView.ClampString | internal/ui/tui/view_helper.go:13-32 | Width 0 or less gives ""; a string that fits is returned; a longer one is its first `maxLen` runes then `…`. |
| ResultView.ClampMeans | internal/ui/tui/view_helper.go:13-32 | The result is at most `maxLen + 1` long and is "", the string, or a prefix of it followed by the ellipsis; clamping twice changes nothing. |
| ResultView.PrettyBody | internal/ui/tui/view_helper.go:33-43 | An empty body is `(empty)`; JSON is re-indented; anything else is shown trimmed. |
| ResultView.TrimSpaceKeepsMiddle | internal/ui/tui/view_helper.go:42 | The trimmed body is a contiguous part of it, with only white space dropped around it. |
| ResultView.TrimSpaceEdges | internal/ui/tui/view_helper.go:42 | The trimmed body neither starts nor ends with white space, and trimming again changes nothing. |
| ResultView.HeadersNoneMeans | internal/ui/tui/view_helper.go:113-124 | The pane starts `Headers:` then `(none)` exactly when the response has no headers. |
| ResultView.TruncationShown | internal/ui/tui/view_helper.go:126-132 | A truncated body is followed by `(truncated)`; when the body itself does not end in that text, the pane ends with it exactly when the body was truncated. |

## Left out

- Input and output are not modelled: printing reports, the UI (`app.go`, `commands.go` and the rest of the interactive UI), and logging. Every Go call into the file system, the clock, the UUID random source or the network is a parameter: `Host`, `Net`, `JsonLib`, `Reading` and the loader and runner ports.
- Foreign libraries are function values: YAML decoding, `encoding/json` (marshal, unmarshal, indent), the JSONPath lookup, `regexp`, float parsing and formatting, `url.Values.Encode` and `ClassifyRunError`/`NewRunError`. Contracts about them say only what follows from how the core uses their results.
- JSON numbers are exact reals, not `float64`: rounding, NaN and infinities in `checkGt`/`checkLt` and `jsonPathToFloat64` are not modelled, and float parsing and formatting are library functions.
- Concurrency, contexts and deadlines are not modelled. Cancellation in the validator is an input saying which request saw it.
- Go's nil and empty maps and slices are told apart only where the core does (request headers, JSON and form bodies, the decoded `mapJSONPath` input).
- Text: Go strings are modelled as sequences of Unicode scalar values, not bytes. Invalid UTF-8 and byte-level indexing are not modelled. All the scanning in the core is on ASCII delimiters, where the two agree.
- Text.LowerChar: case mapping and `strings.EqualFold` are ASCII-only; Unicode letters outside ASCII are left as they are.
- Text.Quote: `%q` escapes only `"`, `\`, newline, tab and carriage return; other control characters and non-printable runes are not escaped as Go would.
- Paths: only Unix paths are modelled; `filepath.Separator` is `/`.
- domain types: the record files shown are stale. `JSONPathAssertion` with six checks and the aggregate `RunResult` follow their callers.
- Resolver.ResolveBodySpec: the "JSON body must be an object" guard is not modelled. It cannot fail, because the resolved clone of a map is a map.
- Resolver.Scan: the text of the resolver's missing-variable error differs from the renderer's (`missing variable: k` against `missing variable "k"`). `RenderAgreesWithResolve` compares kinds, not messages.
- Orchestration.Execute: the ghost orders name the map order each request's rules were visited in; the result holds for every order.
- RunStore: `appendIndex` is left out. Its error is ignored by `SaveRun` and it writes only a side file.
- RunStore.Store: the temporary file is removed after a failed rename; that removal's result is ignored and not modelled.
- HttpRunner.ReadBounded: a negative `maxBytes` makes the Go code panic (`b[:maxBytes]`), so it is a precondition, and `Exchange` and `Sent` require it only where a response body is read.
- ReadBoundedMeans: states the corrected reading, with an unbounded `maxBytes+1`. At `maxBytes` = 2^63-1 the Go sum wraps and the body is lost; `ReadBoundedAsWritten` models that (see Findings).
- HttpRunner.Run: requires a non-negative limit on every path, although the Go code panics only when a response body is read.
- HttpRunner: the runner's limit is an unbounded integer; only `ReadBoundedAsWritten` keeps it within the `int64` range.
- HttpRunner.Run: the latency is a parameter, the clock difference measured around `client.Do`.
- WorkspaceFinder: `filepath.Abs`, `os.Stat` and reading the working directory are functions passed in.
- WorkspaceArgs.EnvironmentArg: `fileExists` is not consulted, because the Go code returns the same path whether or not the file exists.
- WorkspaceArgs.EnvironmentArgForLoader: the workspace root is assumed absolute, as `resolveWorkspaceRoot` always returns.
- WorkspaceArgs: the wiring in `loadWorkspace`, which constructs the loaders, runner and store, is left out.
- ErrorDisplay.ExtractLine: `(?i)` folds only ASCII letters in the model; `\b` and `\s` are written out by hand.
- ResultView: `renderResultDetails` is left out; the display core is the clamping, the body and the response pane.
- ResultView.PrettyBody: the re-indented JSON is the `JsonLib`'s `marshalIndent`, and Go's `string(bytes)` conversion is a parameter.
- ResultView.TrimSpaceBytes: `bytes.TrimSpace` trims only the ASCII white space; Unicode spaces encoded in UTF-8 are kept.
- ResultView.RenderResponse: the header lines follow the order a parameter gives, standing for Go's random map order.

## Findings

| source | as written | input that shows it | evidently intended | confidence | as-written member | corrected member |
|---|---|---|---|---|---|---|
| internal/ui/tui/error_ux.go:94-116 | `strings.Fields(part)[0]` is indexed without checking that a word follows the marker | a request with the placeholder `{{ . }}` and no variable `.`: the resolver (internal/domain/vars_resolver.go:262-266) reports `missing variable: .`, and trimming ` .,:;"'` leaves nothing; likewise an error whose text is `missing variable:` | the message `Missing variable` | not executed | ErrorDisplay.ExtractMissingVarName, ErrorDisplay.ResolverDotPanics, ErrorDisplay.NameExtractionPanics | ErrorDisplay.MissingVarName |
| internal/infra/httprunner/runner.go:175-185 | `io.LimitReader(r, maxBytes+1)` with an `int64` sum, which wraps to the smallest `int64` at `maxBytes` = 2^63-1 | `WithMaxBodyBytes(math.MaxInt64)` and a response body of one byte: `io.LimitReader` reads nothing | the whole body, not truncated | not executed | HttpRunner.ReadBoundedAsWritten, HttpRunner.ReadBoundedWrapLosesBody | HttpRunner.ReadBounded |
