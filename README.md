# Diagram-AI-Assistant core, modelled in Dafny

This project models the deterministic core of the Diagram-AI-Assistant backend. The backend turns a photo of a hand-drawn diagram into a canonical graph and renders that graph with the Mermaid CLI.

What is modelled:

- **Graph inference** (`InferenceEngine.build_graph`, module `Inference`). A loosely typed vision payload, modelled as a JSON value (`JsonValue.Json`), becomes a `Diagram` of nodes and edges.
  - Missing fields get defaults. A missing id becomes `node_<k>`, where `k` counts the nodes accepted so far.
  - Ids and labels are stringified with Python's `str()`, so a null id becomes `"None"`.
  - An edge is kept when both stringified endpoints are non-empty.
  - Any fault, including a pydantic validation error, becomes a single `GraphBuildFailure`.
  - The two `for` loops are methods, `BuildNodes` and `BuildEdges`. Each is proved against a loop function over an abstract loop body (`Collect`, `Filter`). `BuildGraph` is proved against the function `Build`.
- **JSON extraction from a Gemini reply** (`GeminiVisionProvider._clean_json`, module `GeminiVision`). The model strips the text, then returns one of three things:
  - group 1 of the first match of ``` ```(?:json)?\s*(\{.*?\})\s*``` ``` under `re.DOTALL`;
  - otherwise, the slice from the first `{` to the last `}`;
  - otherwise, the stripped text.

  The regular expression has a declarative semantics:
  - `MatchAt` says where a match starts and ends.
  - `FirstMatch` picks the leftmost start, with the lazy `.*?` ending at the first `}` from which the rest matches.

  The computed search `Search` is proved to find exactly that match. On top of this the model proves that the result is a slice of the stripped text, what it contains in each branch, and that `_clean_json` is idempotent. The exception funnel of `analyze` is a function whose SDK reply, image conversion and `json.loads` are parameters.
- **Rendering** (`MermaidRenderer`, module `MermaidRender`).
  - The renderer is a class whose cached `mmdcPath` field `Render` updates when it re-probes.
  - The file system is a `Host` object: the set of existing paths, plus a ghost log of the command lines started.
  - `Render` is proved against `RenderSpec`. That function fixes the order of the checks (binary, format, blank code), the command line, the output path, the mapping from exit status and error output to errors, and the removal of the temporary input file.
- **OCR reshaping** (`OCRService`, module `Ocr`): the start-up failure, the loop that turns reader detections into records, and the identity `merge_nearby_text`.
- **Stub provider** (`StubVisionProvider.analyze`, module `StubVision`): the fixed payload, and the three-node, two-edge diagram graph inference makes of it.
- **Errors** (`backend/app/core/errors.py`, module `Errors`): the `AppError` hierarchy as a datatype with its status codes.
- **Configuration** (`backend/app/core/config.py`, module `Config`): the `assemble_cors_origins` validator and the settings defaults.

Python built-ins used by the core live in `PyText` (`str.strip`, `find`, `rfind`, `split`, `join`, `replace`, decimal text) and `JsonValue` (`dict.get`, `type(v).__name__`, `str(v)`, `repr(s)`).

Where the design notes and the code disagree, the model follows the code:

- An unrecognised node shape is kept as given; it is not replaced by `rectangle`.
- Node ids are not made unique. An explicit `node_1` followed by an implicit second id repeats it (`Inference.ImplicitIdCanCollide`).
- Edges naming undeclared nodes are kept. An edge with no `from`/`to` is kept with both ends `"None"` (`Inference.MissingEndpointsKept`).
- The renderer has no timeout.
- The temporary input file is removed on every exit of the `try` block, but a failed write leaves it behind (`MermaidRender.WriteFailureLeavesFile`).
- A Gemini provider built without an API key has no `model_name`. `analyze` then fails with `AttributeError`, not `VisionFailure` (`GeminiVision.AnalyzeWithoutKey`).

## Model

| member | source | states |
|---|---|---|
| Errors.AppError.Status | backend/app/core/errors.py:2-41 | Status codes: `ValidationError` 400, `GraphBuildFailure` 422, `VisionFailure` 502; `StorageError`, `OCRFailure` and `RenderFailed` 500; the base class and `MermaidSyntaxError` use the code they were given. Each direction is stated. |
| Errors.NewMermaidSyntaxError | backend/app/core/errors.py:2-36 | `MermaidSyntaxError(msg)` goes through the base constructor: it keeps its message and has status 500. |
| Errors.NewOCRFailure | backend/app/core/errors.py:19-22 | `OCRFailure` keeps a given message, uses "Text extraction failed" when called without one, and has status 500. |
| Errors.NewVisionFailure | backend/app/core/errors.py:24-27 | `VisionFailure` keeps a given message, uses "Diagram analysis failed" when called without one, and has status 502. |
| Errors.NewGraphBuildFailure | backend/app/core/errors.py:29-32 | `GraphBuildFailure` keeps a given message, uses "Could not build diagram structure" when called without one, and has status 422. |
| Errors.NewRenderFailed | backend/app/core/errors.py:38-41 | `RenderFailed` keeps a given message, uses "Image rendering failed" when called without one, and has status 500. |
| JsonValue.Str | backend/app/services/inference.py:44-53 | `str(v)` is empty exactly for the empty string, and is the text itself for a string. |
| JsonValue.LastBinding | backend/app/services/inference.py:44-53 | Finds the last binding of a key, which is the one `dict.get` reads after `json.loads`; no later binding of the key exists. |
| JsonValue.DictShown | backend/app/services/inference.py:44-53 | `str` of a dict shows every key bound in the object, each once and in the order of its first binding, with the value `dict.get` returns for it. |
| JsonValue.StrRepeatedKey | backend/app/services/inference.py:44-53 | The object decoded from `{"a": 1, "a": 2}` prints as `{'a': 2}`. |
| PyText.Strip | backend/app/services/vision/gemini.py:68 | `strip()` removes white space, and only white space, from both ends: the result is a slice with no white space at either end, and everything cut off before and after it is white space. It is empty exactly when the text is all white space. |
| PyText.StripStrip | backend/app/services/vision/gemini.py:68 | Stripping twice is stripping once. |
| PyText.Find | backend/app/services/vision/gemini.py:80 | `find('{')` is -1 exactly when there is no `{`; otherwise it is the first index holding `{`. |
| PyText.RFind | backend/app/services/vision/gemini.py:81 | `rfind('}')` is -1 exactly when there is no `}`; otherwise it is the last index holding `}`. |
| PyText.SplitCount | backend/app/core/config.py:17 | `split(",")` yields one more piece than there are commas. |
| PyText.SplitPiecesClean | backend/app/core/config.py:17 | No piece of `split(",")` contains a comma. |
| PyText.SplitJoin | backend/app/core/config.py:17 | The pieces joined with `,` give back the string. |
| PyText.ReplaceAllChanges | backend/app/services/mermaid/renderer.py:41 | `replace` with a different replacement of the same length changes any text that contains the pattern. |
| PyText.ReplaceAllSuffix | backend/app/services/mermaid/renderer.py:41 | When the pattern has no border and ends the text, `replace` makes the text end with the replacement. |
| PyText.DecimalInjective | backend/app/services/inference.py:44 | Distinct indices have distinct decimal texts, so `node_<k>` ids are distinct. |
| Inference.NodeFromMeaning | backend/app/services/inference.py:43-48 | One node entry is accepted exactly when it is a dict with a string shape (if any) and a null-or-integer-list bbox (if any). The node then has the stringified id or `node_<k>`, the stringified label or `""`, the shape as given or `rectangle`, and the bbox copied. |
| Inference.EdgeFromMeaning | backend/app/services/inference.py:51-60 | One edge entry is kept exactly when neither endpoint is `""`. It is accepted exactly when it is a dict whose label (if kept) is null or a string and whose type is a string. The edge then has the stringified endpoints, the label as given and the type or `arrow`. |
| Inference.Collect | backend/app/services/inference.py:40-48 | A collecting loop succeeds exactly when every step succeeds, and then returns one result per entry, in order. |
| Inference.Filter | backend/app/services/inference.py:50-60 | A filtering loop succeeds exactly when every step succeeds, and keeps at most one item per entry. |
| Inference.CollectStops | backend/app/services/inference.py:36-70 | The first failing entry ends the node loop with its fault; later entries are not looked at. |
| Inference.FilterStops | backend/app/services/inference.py:36-70 | The first failing entry ends the edge loop with its fault. |
| Inference.FilterKeepsOrder | backend/app/services/inference.py:51-60 | The edge loop keeps exactly the accepted edges, in input order. |
| Inference.BuildNodes | backend/app/services/inference.py:40-48 | The node loop, appending to `nodes` with the default id read from the running `len(nodes)`, returns exactly `Collect(items, NodeFrom)`. |
| Inference.BuildEdges | backend/app/services/inference.py:50-60 | The edge loop, appending only when `src and tgt`, returns exactly `Filter(items, EdgeFrom)`. |
| Inference.BuildGraph | backend/app/services/inference.py:31-70 | `build_graph` returns the built diagram, or raises `GraphBuildFailure` with the fault's text. The OCR argument is not read. |
| Inference.BuildAllOrNothing | backend/app/services/inference.py:36-70 | A diagram comes out exactly when the payload is a dict whose node entries, edge entries and diagram type all conform. There is no partial result. |
| Inference.KeptFrom | backend/app/services/inference.py:50-60 | The positions of the entries a fault-free edge loop keeps are valid entry positions, listed in increasing order. |
| Inference.KeptFromListsKept | backend/app/services/inference.py:50-60 | An edge entry is kept exactly when the loop's list of kept positions holds its position. |
| Inference.KeptFromItems | backend/app/services/inference.py:50-60 | The `m`-th kept item comes from the entry at the `m`-th kept position, and there are as many kept items as positions. |
| Inference.BuildEdgeContents | backend/app/services/inference.py:50-66 | The `m`-th edge of the diagram is what the `m`-th kept edge entry promises (stringified endpoints, label, type or `arrow`). The kept entries are exactly those with two non-empty endpoints, in input order. |
| Inference.Build | backend/app/services/inference.py:31-70 | `build_graph` as a function; its meaning is stated by `BuildAllOrNothing`, `BuildContents`, `BuildEdgeContents` and `NoNodesKey`. |
| Inference.BuildContents | backend/app/services/inference.py:40-66 | The diagram has one node per node entry, in order, each as its entry promises. Its edges are the kept edges in input order, never more than the entries. Its type is the one given, or `flowchart`. |
| Inference.NoNodesKey | backend/app/services/inference.py:41 | Without a `nodes` key the diagram has no nodes. |
| Inference.ImplicitIdsDistinct | backend/app/services/inference.py:44 | When no node entry has an id, the ids are `node_0 .. node_<n-1>` and pairwise distinct. |
| Inference.ImplicitIdCanCollide | backend/app/services/inference.py:44 | An explicit `node_1` followed by an entry without an id yields two nodes both called `node_1`. |
| Inference.MissingEndpointsKept | backend/app/services/inference.py:52-54 | An edge entry without `from`/`to` is kept as `None -> None`, with no node of that name. |
| Inference.BadShapeFails | backend/app/services/inference.py:46-70 | A non-string shape makes the whole build fail with a validation fault, reported with status 422. |
| GeminiVision.FindClose | backend/app/services/vision/gemini.py:71 | Finds the first `}` at or after a position that white space and a fence follow, or reports that there is none. |
| GeminiVision.OpensIff | backend/app/services/vision/gemini.py:71 | After a fence, the group can open only at the first non-space after the optional `json`, and only if a `{` is there. |
| GeminiVision.MatchFromSpec | backend/app/services/vision/gemini.py:71 | From a fence, the computed group is a match of the pattern and ends at the earliest possible `}`. When nothing is computed, no match starts at that fence. |
| GeminiVision.SearchNone | backend/app/services/vision/gemini.py:71 | When the search finds nothing, no match starts at or after its starting point. |
| GeminiVision.SearchSome | backend/app/services/vision/gemini.py:71 | What the search finds is a match with the leftmost start, lazily ended. |
| GeminiVision.SearchFinds | backend/app/services/vision/gemini.py:71-72 | `re.search` reports a match exactly when the pattern matches somewhere. |
| GeminiVision.FirstMatchUnique | backend/app/services/vision/gemini.py:71 | The first match, leftmost and lazy, is unique. |
| GeminiVision.MatchAtShift | backend/app/services/vision/gemini.py:71 | A match inside a slice is a match in the whole text, shifted by the slice's start. |
| GeminiVision.CleanJson | backend/app/services/vision/gemini.py:62-86 | `_clean_json`; its meaning is stated by `CleanIsSlice`, `CleanFenced`, `CleanUnfenced` and `CleanJsonIdempotent`. |
| GeminiVision.Fallback | backend/app/services/vision/gemini.py:80-86 | The brace fallback; its meaning is stated by `FallbackShape` and `FallbackKeeps`. |
| GeminiVision.CleanIsSlice | backend/app/services/vision/gemini.py:68-86 | `_clean_json` returns a slice of the stripped text. |
| GeminiVision.CleanFenced | backend/app/services/vision/gemini.py:71-73 | When a fenced block matches, the result is group 1 of the first match. It starts with `{` and ends with `}`. |
| GeminiVision.FencedResult | backend/app/services/vision/gemini.py:71-73 | The computed search yields the only first match, and `_clean_json` returns its group. |
| GeminiVision.CleanUnfenced | backend/app/services/vision/gemini.py:80-86 | Without a fenced block, the result runs from the first `{` to the last `}` when the first comes before the last; otherwise it is the stripped text. |
| GeminiVision.FallbackShape | backend/app/services/vision/gemini.py:80-86 | The fallback slices from the first `{` to the last `}` (inclusive) when they are in order, and keeps the text otherwise. |
| GeminiVision.FallbackKeeps | backend/app/services/vision/gemini.py:80-84 | A text that starts with `{` and ends with `}` is its own fallback. |
| GeminiVision.GroupHasNoMatch | backend/app/services/vision/gemini.py:71-73 | Group 1 of the first match holds no match of the pattern. |
| GeminiVision.SliceHasNoMatch | backend/app/services/vision/gemini.py:80-84 | A slice of a text without a match has no match either. |
| GeminiVision.CleanKeeps | backend/app/services/vision/gemini.py:62-86 | A brace-to-brace text in which the search finds nothing is unchanged by `_clean_json`. |
| GeminiVision.FencedFixed | backend/app/services/vision/gemini.py:71-73 | Cleaning the group of a fenced match again gives the group back. |
| GeminiVision.UnfencedFixed | backend/app/services/vision/gemini.py:80-86 | Cleaning the fallback result of a stripped text again gives it back. |
| GeminiVision.CleanJsonIdempotent | backend/app/services/vision/gemini.py:62-86 | `_clean_json(_clean_json(t)) == _clean_json(t)` for every text. |
| GeminiVision.NewGeminiProvider | backend/app/services/vision/gemini.py:15-21 | The model name `gemini-2.5-flash` is set exactly when an API key is configured. |
| GeminiVision.Analyze | backend/app/services/vision/gemini.py:28-60 | `analyze`; its meaning is stated by `AnalyzeFunnel` and `AnalyzeWithoutKey`. |
| GeminiVision.AnalyzeFunnel | backend/app/services/vision/gemini.py:32-60 | Inside the `try`, every failure is a `VisionFailure` (status 502): an SDK error with its text, an empty reply, or cleaned text that does not parse. Success is exactly the parse of the cleaned reply. |
| GeminiVision.AnalyzeWithoutKey | backend/app/services/vision/gemini.py:16-29 | Without an API key, `analyze` fails before its `try` with an `AttributeError`. |
| MermaidRender.Host.Launch | backend/app/services/mermaid/renderer.py:52-58 | Starting the CLI logs its command line. It yields the exit status and error output, or the start error, and creates the output file when the CLI writes one. |
| MermaidRender.MermaidRenderer.constructor | backend/app/services/mermaid/renderer.py:12-16 | The renderer caches what `shutil.which("mmdc")` answered. |
| MermaidRender.MermaidRenderer.Render | backend/app/services/mermaid/renderer.py:18-82 | `render` returns, caches, leaves on disk and starts exactly what `RenderSpec` says for the cached path, the re-probe, the files, the code, the format (`png` when the argument is omitted) and the oracles. |
| MermaidRender.RenderSpec | backend/app/services/mermaid/renderer.py:18-82 | What `render` does, as a function of its inputs; its meaning is stated by `NotInstalledFirst`, `ProbeCached`, `FormatChecked`, `BlankCodeRejected`, `ValidateMatchesRender`, `CommandShape`, `Cleanup` and `WriteFailureLeavesFile`. |
| MermaidRender.TryBlock | backend/app/services/mermaid/renderer.py:43-76 | The `try` block with its `except` clauses; its meaning is stated by `TryBlockErrors`. |
| MermaidRender.OutputPath | backend/app/services/mermaid/renderer.py:41 | The output path; its meaning is stated by `OutputPathShape` and `OutputPathReplacesAll`. |
| MermaidRender.Command | backend/app/services/mermaid/renderer.py:46-50 | The argument vector; its meaning is stated by `CommandShape` and `DefaultFormatTransparent`. |
| MermaidRender.DefaultFormatTransparent | backend/app/services/mermaid/renderer.py:18-50 | Called without a format, `render` starts the CLI with `-b transparent`, the png options. |
| MermaidRender.MermaidRenderer.Run | backend/app/services/mermaid/renderer.py:43-76 | The `try` block with its `except` clauses yields exactly `TryBlock`'s result and files, and starts the command once. |
| MermaidRender.ValidateSyntax | backend/app/services/mermaid/renderer.py:84-87 | `validate_syntax` is true exactly when the code holds a non-space character. |
| MermaidRender.NotInstalledFirst | backend/app/services/mermaid/renderer.py:14-27 | Without the binary, even after the re-probe, `render` raises the "not installed" `RenderFailed` (500). It checks nothing else, creates no file and starts nothing. |
| MermaidRender.ProbeCached | backend/app/services/mermaid/renderer.py:14-25 | A cached path is kept, and a missing one is replaced by the re-probe, on every path through `render`. |
| MermaidRender.FormatChecked | backend/app/services/mermaid/renderer.py:29-30 | With the binary found, a format other than png/svg raises `ValueError` before any file or process exists. |
| MermaidRender.BlankCodeRejected | backend/app/services/mermaid/renderer.py:33-34 | With the binary and a supported format, blank code raises `MermaidSyntaxError` (500) before any file or process exists. |
| MermaidRender.ValidateMatchesRender | backend/app/services/mermaid/renderer.py:33-87 | With the binary found and a supported format, `validate_syntax` fails exactly when `render` raises the empty-code `MermaidSyntaxError`, and then `render` creates no file and starts nothing. This assumes that the temporary-file library raises only built-in exceptions. |
| MermaidRender.CommandShape | backend/app/services/mermaid/renderer.py:46-50 | The CLI is started only after a successful write, with `[mmdc, -i, input, -o, output]`, followed by `-b transparent` exactly for png. |
| MermaidRender.InputSuffixBorderless | backend/app/services/mermaid/renderer.py:37-41 | `.mmd` has no border, so no two occurrences of it overlap. |
| MermaidRender.OutputPathShape | backend/app/services/mermaid/renderer.py:41 | For an input ending in `.mmd`, the output path ends in `.<format>` and differs from the input. |
| MermaidRender.OutputPathReplacesAll | backend/app/services/mermaid/renderer.py:41 | For a supported format the output path contains no `.mmd`: every occurrence is replaced, not only the final suffix. |
| MermaidRender.Cleanup | backend/app/services/mermaid/renderer.py:67-82 | Once the CLI was started, the input file is gone on every outcome. A success returns the output path, which exists. An output file is never removed. |
| MermaidRender.WriteFailureLeavesFile | backend/app/services/mermaid/renderer.py:23-39 | A failed write raises the write's exception and leaves the temporary file behind, whether the binary was found at construction or by the re-probe. |
| MermaidRender.TryBlockErrors | backend/app/services/mermaid/renderer.py:60-76 | Every failure in the `try` is `MermaidSyntaxError` or `RenderFailed` (500). A syntax error arises exactly from a non-zero exit whose stripped error output contains "Syntax error". Success needs exit 0 and an existing output file, and returns the output path. |
| Ocr.Trunc | backend/app/services/ocr.py:34 | `int(x)` truncates toward zero. |
| Ocr.NewOcrService | backend/app/services/ocr.py:9-15 | Start-up succeeds exactly when the reader starts, with the given languages or `['en']` when none are given. Otherwise it raises `OCRFailure` (500) with the prefix "Failed to initialize OCR engine: ". |
| Ocr.ExtractText | backend/app/services/ocr.py:17-45 | A reader error becomes `OCRFailure` with its text, and a point with fewer than two coordinates becomes `OCRFailure("list index out of range")`. Otherwise there is one record per detection, in order, with the same text, the same number of points (each truncated to a pair of ints) and the same confidence. |
| Ocr.MergeNearbyText | backend/app/services/ocr.py:47-55 | `merge_nearby_text` returns its input unchanged for every threshold. |
| StubVision.Analyze | backend/app/services/vision/stub.py:8-22 | The stub never fails. |
| StubVision.AnalyzeIgnoresInput | backend/app/services/vision/stub.py:8-22 | The stub gives the same answer for every image and prompt. |
| StubVision.StubPayload | backend/app/services/vision/stub.py:11-22 | The payload literal; its meaning is stated by `StubPayloadShape` and `StubBuilds`. |
| StubVision.StubPayloadShape | backend/app/services/vision/stub.py:11-22 | The payload is a flowchart with nodes N1, N2, N3 labelled Start, Process, End, and two `arrow` edges with empty labels whose endpoints are node ids of the payload. |
| StubVision.NodeEntryBuilds | backend/app/services/vision/stub.py:14-16 | Each node entry of the payload passes the schema unchanged, at any position. |
| StubVision.StubNodesBuilt | backend/app/services/vision/stub.py:13-17 | The node loop accepts the three entries as given, in order. |
| StubVision.StubEdgesBuilt | backend/app/services/vision/stub.py:18-21 | The edge loop keeps N1→N2 and N2→N3, in order. |
| StubVision.StubBuilds | backend/app/services/vision/stub.py:11-22 | `build_graph` maps the payload to a flowchart with nodes N1..N3 and the two edges. |
| StubVision.StubEdgesJoinNodes | backend/app/services/vision/stub.py:19-20 | Every edge of the built diagram joins two of its nodes. |
| Config.CorsPieces | backend/app/core/config.py:17 | The comprehension yields one more origin than there are commas. Each origin is a string with no comma that neither starts nor ends with white space. |
| Config.AssembleCorsOrigins | backend/app/core/config.py:14-20 | A string that does not start with `[` becomes a list. A list, or a string starting with `[`, passes unchanged. Anything else raises `ValueError(v)`. |
| Config.CorsSplit | backend/app/core/config.py:16-17 | The list has one entry per comma plus one, each a comma-free, stripped piece, and the pieces join back into the string. |
| Config.CorsEmptyString | backend/app/core/config.py:17 | `""` yields `[""]`. |
| Config.DefaultSettings | backend/app/core/config.py:8-38 | The settings defaults; their meaning is stated by `Defaults`. |
| Config.Defaults | backend/app/core/config.py:8-38 | By default the vision provider is `stub`, preprocessing is on, the OCR fallback is off, no API key is set, the port is 8000, and `TEMP_DIR` is `temp` under the working directory. |

## Left out

- Floating-point JSON numbers are not part of `JsonValue.Json`. A float id, label or bbox entry is not modelled.
- Inference.NodeFromMeaning: pydantic's lax coercions are not modelled. Pydantic would accept a bool or an integral float as a bbox integer. The model accepts only JSON integers there, so it fails where pydantic would succeed on those inputs.
- Inference.BuildGraph: the text of a pydantic `ValidationError` is abbreviated (`FaultMessage`). For a list-valued field pydantic reports one error per failing item (`bbox.0`, `bbox.1`). The model reports a single error on the field, and it leaves out pydantic's per-field detail lines.
- JsonValue.Str: `repr` of strings escapes only backslash, the quote, `\n`, `\r` and `\t`. Other non-printable characters, which Python writes as `\x..`/`\u....`, are not modelled.
- Logging (`loguru`) is not modelled; it has no effect on results.
- GeminiVision: the Gemini SDK call, `response.text`, the BGR-to-RGB/PIL conversion and `json.loads` are parameters of `Analyze` (an SDK reply, an optional conversion exception and a parse function).
- MermaidRender: `shutil.which`, `tempfile.NamedTemporaryFile` (its generated name and any failure), the child process and `stderr.decode()` are oracle parameters. The process's standard output is not modelled.
- MermaidRender.MermaidRenderer.Render: an exception raised by `os.path.exists`/`os.remove` inside the `finally` clause is not modelled. Nor is a file that another process removes or creates while the CLI runs.
- Ocr: the EasyOCR reader is an oracle. Coordinates and confidences are reals, so `int()` of NaN or infinity, which raises in Python, is not modelled. Neither is `float()` of a non-numeric confidence.
- Ocr.ExtractText: the only conversion failure modelled is a point with fewer than two coordinates (`IndexError`). A detection that does not unpack into three values is not modelled.
- Config: reading the settings from the environment and `.env` (pydantic-settings) is not modelled. Nor are the `AnyHttpUrl` validation of each CORS origin after `assemble_cors_origins`, and the `os.makedirs` run at import.
- The job orchestrator, the vision-provider base class, image preprocessing, the OpenAI provider, storage, HTTP routing, the browser script and the prompt text are outside this core. The orchestrator's module is not part of this model.
