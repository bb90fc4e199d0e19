# howto — a Dafny model of the playbook registry and its MCP server

`howto` is a command-line tool. It gathers Markdown "playbooks" that start with YAML
frontmatter from two places: a global configuration directory and a project
`.howto` directory. It merges them into a registry keyed by playbook name and
prints a help listing or one playbook. A companion MCP server answers JSON-RPC 2.0
messages on stdio. It offers two tools: `list_playbooks` and `get_playbook`.

The model follows the Go packages one module each:

- `Parser` (`internal/parser`): splits off the frontmatter, applies the defaults and
  validates the description.
- `Config` (`internal/config`): reads `config.yaml`, which holds the `require` list.
- `Loader` (`internal/loader`): walks a directory and parses every `.md` file.
- `Registry` (`internal/registry`): merges the documents. It also provides lookups
  and the listing order: the base name of the file path, then the playbook name.
- `App` (`internal/app`): loads the registry without caching, computes the
  change-detection signature, and provides `CachedRegistryLoader`. That loader is a
  class whose `cached` and `signature` fields change in place.
- `Output` (`internal/output`): the help text and the playbook printer. They write
  through a `Writer` class that records every line written.
- `Mcp` (`internal/mcp`): the server loop. It is a `Server` class that records
  every response sent and holds the `shuttingDown` flag. It also has the per-method
  handlers and the tool texts.

Four helper modules stand in for the Go standard library and the environment:

- `Wrappers`: `Option` and `Result`.
- `Text`: the `strings`, `bytes`, `filepath` and `fmt` functions howto calls.
- `Sorting`: an insertion sort standing in for `sort.Slice` and `sort.Strings`.
- `Fs`: an abstract filesystem. Each path maps to a node: absent, unreadable, or
  present with the ordered entries `filepath.WalkDir` reports under it.

Each Go loop is a Dafny method with loop invariants. Its `ensures` ties the result
or the new state to a specification function, and lemmas prove the promised
properties about that function. Some examples:

- project documents override global ones, and optional global documents are only
  kept when `config.yaml` requires them;
- the listing is sorted strictly and is the only sorted arrangement of the keys;
- the closing search takes the first "\n---\n" anywhere after the opening line,
  and only when there is none tries "\r\n---\r\n", then "\n---\r\n", then a
  final "\n---";
- a changed modification time or size of one file changes the bytes the
  signature hashes for the two directories;
- the cache returns what it stored;
- every request gets exactly one response carrying its id, and notifications get
  none;
- `exit` ends the loop, with or without an earlier `shutdown`.

Places where the code behaves differently from what its doc comments and tests
suggest; the model follows the code:

- The body-skip loop after the closing delimiter, in `extractFrontmatter`, drops
  every leading `-`, `\r` and `\n`. When the first byte after that run is not
  white space, the body does not start with `-`, so a body that starts with a
  Markdown rule or a list dash loses it (`Parser.BodySkipsLeadingDashes`). A
  space before the dash protects it: the skip stops at the space and the trim
  then removes it.
- With mixed line endings the frontmatter is not ended by the first line holding
  exactly `---`. The search for "\n---\n" runs over the whole rest of the file
  before "\r\n---\r\n" is tried, so a CRLF closing line followed by an LF `---`
  line further down puts the CRLF closing line and the text after it into the
  frontmatter (`Parser.MixedLineEndingsOverrun`).
- The `shuttingDown` flag set by `shutdown` changes no reply: `exit` ends the
  loop in both branches of `handleNotification` (`Mcp.ExitEndsServe`).
- The `\r\n---` suffix branch of the closing search can never be taken. Any text
  ending in `\r\n---` also ends in `\n---`, which is checked first
  (`Parser.CrlfSuffixBranchUnreachable`).
- `oneLineDescription` yields "(no description)" for blank text. It also yields it
  for the text "(no description)" itself, so that result does not mean the
  description was blank (`Output.OneLineDescriptionWords`).
- The `""` fallback for the sort key in `Registry.List` is dead, because
  `filepath.Base` never returns `""` (`Registry.SortKey`).

## Model

| member | source | states |
|---|---|---|
| Text.TrimSpace | internal/parser/parser.go:152-155 | the result neither starts nor ends with white space; with `Text.TrimSpaceEmptyIffBlank`, it is empty exactly when the input is blank |
| Text.TrimSpaceEmptyIffBlank | internal/mcp/server.go:298-300 | trimming yields "" if and only if every character is white space (the "(empty playbook)" test) |
| Text.TrimRightNewlines | internal/mcp/server.go:275 | the result is a prefix of the input, everything removed is '\n', and the result does not end in '\n' |
| Text.Fields | internal/output/output.go:52 | every field is a non-empty word free of white space |
| Text.FieldsEmptyIffBlank | internal/output/output.go:52-55 | there are no fields exactly when the text is blank |
| Text.FieldsOfJoin | internal/output/output.go:57 | splitting words joined by single spaces gives back the same words |
| Text.JoinOfWordsShape | internal/output/output.go:57 | words joined by spaces are non-empty, have no edge white space, and contain no white space except ' ' |
| Text.FieldsOfTrimSpace | internal/mcp/server.go:340-344 | trimming before splitting does not change the fields |
| Text.StrLessTransitive | internal/registry/registry.go:69-74 | Go's `<` on strings is transitive |
| Text.StrLessTotal | internal/registry/registry.go:69-74 | Go's `<` on strings is total on distinct strings |
| Text.StrLessIrreflexive | internal/registry/registry.go:69-74 | no string is below itself |
| Text.Index | internal/parser/parser.go:124-128 | -1 exactly when the pattern never occurs; otherwise the pattern occurs at the result and at no earlier index |
| Text.Base | internal/parser/parser.go:56 | `filepath.Base` is never empty, is "." for "", and is "/" or free of slashes |
| Text.ToLower | internal/loader/loader.go:50 | same length, with letters lowered position by position |
| Text.DecimalInjective | internal/app/registry_loader.go:143-145 | `%d` formatting is injective |
| Text.DecimalSign | internal/app/registry_loader.go:143-145 | a formatted number starts with '-' exactly when it is negative |
| Sorting.Sort | internal/registry/registry.go:69-74 | the result is strictly sorted and a permutation of the distinct input |
| Sorting.StrictlySortedUnique | internal/registry/registry.go:69-74 | two strictly sorted sequences with the same elements are equal, so the order does not depend on map iteration |
| Parser.SourceString | internal/parser/parser.go:21-30 | "global", "project" or "unknown", each exactly for its source |
| Parser.ExtractFrontmatter | internal/parser/parser.go:108-158 | the result is the frontmatter split `Frontmatter` defines |
| Parser.OpeningLength | internal/parser/parser.go:110-120 | an opening delimiter is found exactly when the text starts with "---\n" or "---\r\n"; the start is then 5 or 4 |
| Parser.FindClosing | internal/parser/parser.go:123-140 | the closing index is what `ClosingIndex` defines |
| Parser.SkipToBody | internal/parser/parser.go:146-155 | the body is the trimmed text after the delimiter bytes, or empty |
| Parser.ClosingIndexNone | internal/parser/parser.go:124-137 | there is no closing delimiter exactly when none of the three patterns occurs and neither suffix is present |
| Parser.ClosingIndexDelimited | internal/parser/parser.go:124-134 | the index found starts "\n---" or "\r\n---"; when "\n---\n" occurs, the index is its first occurrence |
| Parser.FrontmatterFailure | internal/parser/parser.go:110-112 | extraction fails exactly when the opening is missing or the closing delimiter is not found, with the matching message |
| Parser.FrontmatterSlice | internal/parser/parser.go:143 | the frontmatter is the text between the opening line and the closing delimiter |
| Parser.BodyFromFirstOther | internal/parser/parser.go:148-155 | the body is the trimmed rest from the first byte that is not '\n', '\r' or '-' |
| Parser.CrlfSuffixBranchUnreachable | internal/parser/parser.go:133-134 | a text ending in "\r\n---" already ends in "\n---", so the earlier branch takes it |
| Parser.BodySkipsLeadingDashes | internal/parser/parser.go:148-154 | when the first byte after the skipped run of '\n', '\r' and '-' is not white space, the body is non-empty, starts with that byte, and does not start with '-' |
| Parser.MixedLineEndingsOverrun | internal/parser/parser.go:124-143 | for "---\r\nd\r\n---\r\nb\n---\nc" the frontmatter is "d\r\n---\r\nb": the LF delimiter further down wins over the earlier CRLF closing line |
| Parser.Parse | internal/parser/parser.go:60-99 | an extraction failure, a YAML failure and an empty description each fail with their own message; on success the name defaults to the file name minus ".md"; required defaults to true; content, source and path are as given |
| Parser.ParseContent | internal/parser/parser.go:60-99 | the result is `Parse` of the inputs |
| Parser.ParseFileResult | internal/parser/parser.go:50-57 | a read failure gives "failed to read file: " and the error; otherwise it parses the content under `filepath.Base` of the path |
| Parser.ParseFile | internal/parser/parser.go:50-57 | the result is `ParseFileResult` |
| Config.HasRequire | internal/config/config.go:52-59 | true exactly when the name is in the require list |
| Config.LoadedConfig | internal/config/config.go:18-49 | a missing file gives an empty config; a stat, read or YAML failure gives its own message; otherwise the decoded list, with a missing list as [] |
| Config.LoadProjectConfig | internal/config/config.go:18-49 | the result is `LoadedConfig` |
| Loader.EligibleNameIgnoresCase | internal/loader/loader.go:45-52 | a file is parsed exactly when its name ends in '.', then 'm' or 'M', then 'd' or 'D' |
| Loader.LoadedDocs | internal/loader/loader.go:24-76 | a missing directory gives no documents; it fails exactly on a stat error, with its message; otherwise it gives the documents the walk loads |
| Loader.LoadDocs | internal/loader/loader.go:24-76 | the result is `LoadedDocs`; the discarded `loadErrors` are the access and parse messages of the walk in order, and none when the directory is missing or cannot be stat'ed |
| Loader.LoadGlobalDocs | internal/loader/loader.go:14-16 | `LoadedDocs` with the global source; every document carries it |
| Loader.LoadProjectDocs | internal/loader/loader.go:19-21 | `LoadedDocs` with the project source; every document carries it |
| Loader.GetLoadErrors | internal/loader/loader.go:80-103 | the access and parse messages of the walk in order; a missing root yields one access error |
| Loader.LoadedSource | internal/loader/loader.go:55-62 | every loaded document has the requested source and is the parse of some eligible entry |
| Loader.LoadedAppend | internal/loader/loader.go:37-64 | a failing entry does not stop the walk: the documents and messages of a concatenated walk concatenate |
| Loader.SkippedEntry | internal/loader/loader.go:49-60 | an ineligible or unparsable entry adds no document |
| Loader.LoadedCounts | internal/loader/loader.go:37-64 | each eligible entry yields one document or one message, and each access error one message |
| Registry.BuildRegistry | internal/registry/registry.go:23-42 | the result is `Build`: the filtered global loop, then the project loop |
| Registry.GlobalsKeys | internal/registry/registry.go:27-34 | a name survives the first loop exactly when some global document with it is required or listed in config, and the last such document wins |
| Registry.OverlayKeys | internal/registry/registry.go:37-39 | project documents add their names, the last document of a name wins, and other entries are untouched |
| Registry.BuildKeys | internal/registry/registry.go:23-42 | a name is in the registry exactly when a project document has it or an included global document has it |
| Registry.BuildProjectWins | internal/registry/registry.go:37-39 | a project document overrides any global document of the same name |
| Registry.BuildGlobalKept | internal/registry/registry.go:27-34 | an included global document is kept when no project document shares its name |
| Registry.BuildExcludesOptional | internal/registry/registry.go:29-31 | a global-only name whose documents are all optional and not required by config is absent |
| Registry.BuildValuesNamed | internal/registry/registry.go:33 | every entry is stored under its own name |
| Registry.BuildCount | internal/registry/registry.go:23-42 | the registry holds at most as many entries as there are documents |
| Registry.Get | internal/registry/registry.go:45-48 | found exactly when the name is a key, and the value is that entry |
| Registry.Has | internal/registry/registry.go:99-102 | agrees with `Get` |
| Registry.Count | internal/registry/registry.go:94-96 | zero exactly for the empty registry |
| Registry.SortKey | internal/registry/registry.go:59-62 | the key is never empty, and is "." for an empty path, so the name fallback is never taken |
| Registry.EntryLessOrder | internal/registry/registry.go:69-74 | the comparator is a strict total order |
| Registry.KeyOrderIsStrictTotal | internal/registry/registry.go:69-74 | the order on names induced by the entries is a strict total order |
| Registry.ListingSorted | internal/registry/registry.go:51-81 | the listing is strictly sorted by base name, then name |
| Registry.ListingUnique | internal/registry/registry.go:51-81 | any strictly sorted arrangement of the keys is the listing |
| Registry.List | internal/registry/registry.go:51-81 | every key exactly once, strictly sorted by (base name, name) |
| Registry.CollectEntries | internal/registry/registry.go:57-68 | one entry per key, each carrying that key's sort key |
| Registry.SortedEntriesGiveListing | internal/registry/registry.go:69-80 | the names of the sorted entries are the listing |
| Registry.DocumentsAt | internal/registry/registry.go:87-89 | the documents of the names, in order |
| Registry.GetAll | internal/registry/registry.go:84-91 | the documents of the listing, in order, one per key |
| App.Built | internal/app/registry_loader.go:44-62 | loading fails exactly when the global docs, the project docs or the config fail |
| App.BuiltOutcome | internal/app/registry_loader.go:44-62 | the first failure wins and its message is prefixed with its stage; otherwise the registry is `Build` of the three results |
| App.LoadRegistry | internal/app/registry_loader.go:44-62 | the result is `Built` |
| App.ComputeSignature | internal/app/registry_loader.go:101-156 | the result is the hash of `SignatureInput`, or its first error |
| App.WalkDir | internal/app/registry_loader.go:122-148 | the bytes written for a walk are `WalkRecords`, which stops at the first walk or `Info` error |
| App.SignatureInputFailurePersists | internal/app/registry_loader.go:114-120 | an error on one directory is the error of the whole signature |
| App.WalkRecordsFailurePersists | internal/app/registry_loader.go:123-134 | an error in the walk ends it with that error |
| App.MissingDiffersFromEmpty | internal/app/registry_loader.go:109-113 | a missing directory writes "dir:missing;", which differs from an empty existing directory |
| App.WalkRecordsAppend | internal/app/registry_loader.go:122-148 | the records of a concatenated walk concatenate |
| App.DecimalFieldCancel | internal/app/registry_loader.go:143-145 | two records agreeing from the first number on have equal numbers and equal tails |
| App.FileRecordInjective | internal/app/registry_loader.go:141-146 | the record of a file determines its modification time and size |
| App.TouchChangesSignatureInput | internal/app/registry_loader.go:122-148 | changing one file's modification time or size changes the records one directory's walk writes |
| App.TouchChangesSignature | internal/app/registry_loader.go:101-156 | changing one file's modification time or size under the global or the project directory changes the whole string `computeSignature` hashes for the two directories, whenever both are computed |
| App.CachedRegistryLoader.Load | internal/app/registry_loader.go:65-87 | a signature error is returned and the state kept; a matching signature with a cache returns the cache; otherwise it rebuilds, and a success replaces the cache and signature while a failure keeps them |
| App.CloneRegistry | internal/app/registry_loader.go:89-99 | the clone equals the source, nil included |
| App.LoadTwice | internal/app/registry_loader.go:65-87 | when the first of two loads of an unchanged tree succeeds, the second starts from a cache hit, returns the same registry, and the registry stays cached |
| App.DocumentsToList | internal/app/registry_loader.go:159-166 | the documents in listing order |
| App.SortedKeys | internal/app/registry_loader.go:169-176 | every key exactly once, strictly ascending |
| Output.Writer.WriteLine | internal/output/output.go:14-34 | `Fprintln` appends the line and a newline |
| Output.OneLineDescription | internal/output/output.go:51-58 | blank text gives "(no description)"; other text keeps its words |
| Output.OneLineDescriptionShape | internal/output/output.go:51-58 | the result is a non-empty single line with no edge white space and only single spaces inside |
| Output.OneLineDescriptionIdempotent | internal/output/output.go:51-58 | applying it twice is the same as once |
| Output.OneLineDescriptionWords | internal/output/output.go:51-58 | non-blank text becomes its words joined by spaces; "(no description)" maps to itself |
| Output.PrintHelp | internal/output/output.go:13-36 | writes the usage lines, one line per rule, a blank line, then the listing of `GetAll` |
| Output.WritePreamble | internal/output/output.go:14-23 | writes the preamble lines |
| Output.WriteListing | internal/output/output.go:25-35 | writes "No playbooks available." alone, or the header and one line per document |
| Output.WriteDocLines | internal/output/output.go:32-35 | one "  name: description" line per document, in order |
| Output.AllDocumentsEmpty | internal/output/output.go:25-26 | `GetAll` is empty exactly for the empty registry |
| Output.HelpLinesShape | internal/output/output.go:13-36 | after the 7 fixed lines and one line per rule come the placeholder, or the header followed by document i's line at position i |
| Output.HelpLinesHeader | internal/output/output.go:25-31 | the listing header appears exactly when there are playbooks, and the placeholder exactly when there are none |
| Output.PrintPlaybook | internal/output/output.go:39-48 | an unknown name yields "unknown playbook: name" and writes nothing; a known one writes its content as one line |
| Mcp.OneLine | internal/mcp/server.go:339-346 | agrees with `oneLineDescription` on every input |
| Mcp.ListTextShape | internal/mcp/server.go:262-275 | no documents give "No playbooks available."; otherwise the text plus one newline is the header and one entry line per document |
| Mcp.BuildListText | internal/mcp/server.go:260-275 | the built text is `ListText` of the documents |
| Mcp.ListReply | internal/mcp/server.go:252-279 | a load failure gives -32603 "failed to load playbook registry"; otherwise the listing text |
| Mcp.PlaybookText | internal/mcp/server.go:297-300 | blank content becomes "(empty playbook)"; otherwise it is kept |
| Mcp.GetReply | internal/mcp/server.go:281-315 | an empty name is -32602 before any load; a load failure is -32603; an unknown name is -32602 with the quoted name; otherwise the text and name, description and source |
| Mcp.Server.Serve | internal/mcp/server.go:77-118 | the responses sent, the error and the final flag are those of `Run` over the input |
| Mcp.Server.ServeOne | internal/mcp/server.go:87-116 | one message sends the responses of `Step` and updates the flag as it says |
| Mcp.Server.HandleNotification | internal/mcp/server.go:120-133 | a notification stops the loop exactly when it is `exit` |
| Mcp.Server.HandleRequest | internal/mcp/server.go:135-151 | sends exactly one response with the request's id and sets the flag on `shutdown` |
| Mcp.Server.HandleToolsCall | internal/mcp/server.go:220-250 | sends the one response `CallReply` defines |
| Mcp.Server.ExecuteListPlaybooks | internal/mcp/server.go:252-279 | sends the `ListReply` response |
| Mcp.Server.ExecuteGetPlaybook | internal/mcp/server.go:281-315 | sends the `GetReply` response |
| Mcp.InitializeReply | internal/mcp/server.go:153-176 | -32602 "invalid initialize params" with the decoder's message exactly when the params are present and fail to decode; otherwise the server info: the protocol version, "howto-mcp", the version, `listChanged` and the instructions |
| Mcp.ToolsListReply | internal/mcp/server.go:178-218 | -32602 "tools/list expects an object" exactly when the params are present, are not "{}" and are not an object; otherwise exactly the tools `list_playbooks` and `get_playbook`, in that order |
| Mcp.ReplyCodes | internal/mcp/server.go:135-151 | every error uses a JSON-RPC code, and -32601 is used exactly when the method is none of the five known ones |
| Mcp.CallFaults | internal/mcp/server.go:220-250 | the full decision table of `tools/call`: which argument shapes fail, with which code, and when the load decides |
| Mcp.CallReplyCodes | internal/mcp/server.go:220-315 | tool errors are only -32602 or -32603 |
| Mcp.StepResponses | internal/mcp/server.go:87-116 | a message with an id gets exactly one response with that id, and one without gets none; the loop stops exactly on a valid `exit` notification; the flag is set exactly by a valid `shutdown` request or earlier |
| Mcp.InvalidRequest | internal/mcp/server.go:87-103 | a wrong version or missing method with an id gets one -32600 error and changes nothing else |
| Mcp.RunResponses | internal/mcp/server.go:77-118 | there are never more responses than messages with ids, and every response id comes from some input message |
| Mcp.RunAnswersEveryRequest | internal/mcp/server.go:77-118 | an input of requests only is answered one for one, in order, with matching ids |
| Mcp.ExitEndsServe | internal/mcp/server.go:105-110 | after an `exit` notification nothing else is read or answered |

## Left out

- Filesystem, YAML and JSON: the filesystem is an abstract map from paths to nodes. The walk is the ordered list of entries `filepath.WalkDir` would report. The YAML and JSON decoders are function parameters, so their own behaviour is not modelled.
- SHA-256 and hex encoding: the hash is a function parameter. The model proves facts about the bytes hashed, not about collisions.
- Concurrency: the mutex of `CachedRegistryLoader` and the atomic flag of the server are left out. The flag is a plain field.
- Logging: logger output is left out. `GetLoadErrors` is modelled.
- Mcp.Server.Send: encoder write errors are not modelled, so a send never fails and the "return err" exits of the loop are not taken.
- The JSON schema literals of `tools/list`, `mcp.LATEST_PROTOCOL_VERSION`, and the texts of the `instructions` package: these are not part of this model. The protocol version, the instructions text and the help rules are parameters.
- `main.go`, `cmd/howto-mcp/main.go` and `internal/app/paths.go`: command-line wiring and directory discovery are not part of this model.
- App.CachedRegistryLoader.Load: one `FileSystem` value feeds both the signature and the rebuild. The Go code reads the disk twice, at lines 69 and 78 of `internal/app/registry_loader.go`, so an edit in between stores a newer snapshot under an older signature until the next `Load`; that race is not modelled. A `Node` also gives one status per path for both `os.Stat` and the `Lstat` of `WalkDir`, so a root that is a dangling symbolic link, where the two disagree, is not modelled.
- Mcp.Setup: the server sees one fixed outcome of `loader.Load` for the whole session, like the test stub. The caching loader is modelled on its own in `App.CachedRegistryLoader`.
- App.CloneRegistry: registries are values, so the copy cannot alias the cache. Whether the source shares storage cannot be stated.
- Loader.LoadDocs: the walk callback never returns an error, so the "failed to walk directory" exit cannot be taken and is not modelled.
- Text.JoinPath: `filepath.Join` is simplified to joining with one "/", without `Clean`.
- Text.IsSpace: white space is ASCII only. Unicode spaces that `strings.Fields` and `TrimSpace` also treat as white space are left out.
- Text.ToLower: only ASCII letters are lowered, which is enough to decide a ".md" suffix.
- Text.Quote: `%q` escaping of quotes and control characters inside the name is not modelled. The name is wrapped in plain double quotes.
- Mcp.EntryLine: the em dash is one character, not its three UTF-8 bytes.
- Config.HasRequire: a nil `*ProjectConfig` would panic in `BuildRegistry`. The model always has a config value.
