# ufonaut post-processing, modelled in Dafny

ufonaut turns an OpenAPI document into a Postman collection and then
post-processes it. This project models that post-processing:

- turning generated request bodies and parameters into `{{name}}` placeholders;
- naming endpoints, attaching pre-request and test scripts from a script catalog, and filling the pre-request template;
- reordering the items, and applying a collection-level auth definition;
- building several "sets" of collections from one conversion;
- the three commands (`convert`, `sets`, `list`) up to writing their output files, including the authentication headers for a remote input.

The model is written as immutable data and pure functions:

- A collection is a tree of folders and items (`Collections`). Every operation that walks it is stated over the in-order list of its leaves (`Leaves`).
- A JSON value is a tree (`Json`).
- The file system is a value holding files and directory listings (`Files.FileSystem`).
- The external OpenAPI converter and `JSON.parse`/`JSON.stringify` are parameters.

The modules follow the source's files:

| module | source |
|---|---|
| `Strings` | `src/utils/string.util.ts`, plus ASCII case mapping, join and split |
| `Json` | `src/utils/object.util.ts` |
| `Collections`, `Endpoints`, `Scripts`, `Ordering`, `Auth` | `src/collection/collection-extension.ts` |
| `Template` | `src/template/template.ts` |
| `Base64`, `Http` | `src/utils/http.util.ts` |
| `Placeholders`, `Unquote`, `Converter` | `src/converter/converter.ts` |
| `Files` | `src/utils/file.util.ts` |
| `Executor` | `src/executor/executor.ts` |

Most operations are proved against a partner:

- an independent reference definition: `Template.Fill` for the regular-expression replacement, and `Unquote.Expected` for the unquote scan;
- a corrected version: `Placeholders.Rewrite`, which treats `null` as a value, for the source's rewrite `Placeholders.RewriteAsWritten`;
- an inverse: `Base64.Decode`; `Placeholders.Substitute`, which fills only placeholders of the right name; `Strings.Split`;
- or an invariant it preserves: tree shape, authorization, multiset of leaves.

The request pipeline (`Converter.Convert`, `Converter.ProcessSet`, `Executor.PrepareConvert`) follows the source as written, including the behaviour listed under Findings. The corrected behaviour is stated beside it.

Two facts about the source shape the model:

- `CreateSets` attaches scripts to a set only when the set gives both a scripts path and a template path (`src/converter/converter.ts:85-102`).
- `LettersOnlyWithDash` is imported by `src/collection/collection-extension.ts:4`, but `src/utils/string.util.ts` does not define it. It is defined here from its tests (`src/utils/string.utl.test.ts:19-37`): keep exactly the characters `[A-Za-z-]`.

## Model

| member | source | states |
|---|---|---|
| Json.ArraysAreObjects | src/utils/object.util.ts:1-7 | every array passes `IsObject`; exactly strings, numbers and booleans fail it, so `null` counts as an object, as `typeof` says |
| Json.ObjectUtilFixtures | src/utils/object.util.test.ts:12-43 | the test fixtures: an array is an object and an array, a string is neither, a plain object is an object but not an array, and an array of objects is both |
| Strings.Lower | src/collection/collection-extension.ts:34 | lower-casing keeps the length and maps every character on its own: ASCII capitals to small letters, everything else unchanged |
| Strings.LowerIdempotent | src/collection/collection-extension.ts:34 | lower-casing twice is lower-casing once |
| Strings.Capitalize | src/utils/string.util.ts:1-3 | only the first character is upper-cased; the rest and the length are kept, and the empty string stays empty |
| Strings.CapitalizeIdempotent | src/utils/string.util.ts:1-3 | capitalizing twice is capitalizing once |
| Strings.CapitalizeKeepsNonLower | src/utils/string.util.ts:1-3 | a word that does not start with a small letter is unchanged |
| Strings.CapitalizeExamples | src/utils/string.utl.test.ts:3-17 | `word` gives `Word` and not `word`; `word demo` gives `Word demo` and not `word Demo` |
| Strings.LettersNumbersWithDash | src/utils/string.util.ts:7-9 | every output character is in `[a-zA-Z0-9-]`, and every such character occurs exactly as often as in the input |
| Strings.FilterConcat | src/utils/string.util.ts:8 | filtering distributes over concatenation; with `FilterSingle` this fixes the output as the in-order subsequence of kept characters |
| Strings.FilterSingle | src/utils/string.util.ts:8 | a single character is kept exactly when it is in the class |
| Strings.FilterMultiset | src/utils/string.util.ts:8 | a kept character occurs as often as in the input, and a dropped one not at all |
| Strings.LettersNumbersWithDashIdempotent | src/utils/string.util.test.ts:21-55 | applying it twice is applying it once, and it is the identity on text already in the class |
| Strings.LettersOnlyWithDash | src/utils/string.utl.test.ts:19-37 | every output character is in `[A-Za-z-]`, and every such character occurs exactly as often as in the input |
| Strings.LettersOnlyWithDashIdempotent | src/utils/string.utl.test.ts:35-37 | applying it twice is applying it once, and a word of letters such as `Demo` is unchanged |
| Strings.LettersOnlyWithDashLower | src/collection/collection-extension.ts:18-20 | filtering to letters and dashes commutes with lower-casing |
| Strings.SplitJoin | src/executor/executor.ts:252-278 | splitting joined pieces that hold no separator gives the pieces back |
| Endpoints.NormalizedEndpointName | src/collection/collection-extension.ts:18-20 | the name is the lower-cased method, unfiltered, then `-`, then the lower-cased path filtered to letters and dashes |
| Endpoints.NormalizedCaseInsensitive | src/collection/collection-extension.ts:18-20 | the name does not depend on the case of the method or the path (`GET`/`get`, `Store`/`store` converge) |
| Endpoints.ItemPath | src/collection/collection-extension.ts:34 | the slash-joined, lower-cased path, or `undefined` for an item without a path |
| Endpoints.ListEndpoints | src/collection/collection-extension.ts:29-41 | one entry per leaf, in visiting order; the method and path are lower-cased, and the normalized name can be recomputed from them |
| Endpoints.ListEndpointsFolders | src/collection/collection-extension.ts:33 | the list depends on the leaves only, not on the folders |
| Endpoints.EndpointWithoutPath | src/collection/collection-extension.test.ts:27-54 | a `PATCH` item without a path lists as `patch` `undefined`, normalized `patch-undefined` |
| Collections.MapLeavesLeaves | src/collection/collection-extension.ts:134-141 | visiting every leaf in place maps the leaf list item by item and keeps every folder |
| Collections.MapLeavesWithLeaves | src/collection/collection-extension.ts:101-103 | threading a shared state through the tree threads it through the leaf list in order, and keeps every folder |
| Collections.Rename | src/collection/collection-extension.ts:43-47 | a non-empty name replaces the collection's name and an empty one changes nothing; items are untouched |
| Collections.RenameTwice | src/collection/collection-extension.ts:43-47 | after two renames the last non-empty name wins |
| Template.ReplaceTokenRender | src/template/template.ts:10 | one regular-expression pass replaces exactly the tokens of its name, whatever whitespace pads them, and copies all other text: it equals the reference `Fill` on a text read as pieces. Literal text may hold `<`, as script comparisons do, as long as it holds no `<%%=` of its own |
| Template.NoAngleNoOpen | src/template/template.ts:10 | text without `<` never starts a match of the token expression |
| Template.InterpolateRender | src/template/template.ts:8-12 | both passes replace every token of their name, the request body first, so a `scriptContent` token brought in by the body is replaced too |
| Template.InterpolateWithoutTokens | src/template/template.ts:8-12 | a template holding neither token is returned unchanged |
| Template.ReplaceTokenAbsent | src/template/template.ts:11 | a pass over text without its token changes nothing |
| Template.RequestBodyPassFirst | src/template/template.ts:9-11 | a request body that is itself a `scriptContent` token becomes the script content |
| Template.InterpolateTwoTokens | src/template/template.test.ts:45-49 | the shape of the worked example: the body replaces its token and the script content replaces the padded `scriptContent` token, and all other text stays |
| Unquote.UnquoteRender | src/converter/converter.ts:172-175 | the scan replaces each quoted `<unquote>X` by `X` and copies all other text; it equals the reference `Expected` |
| Unquote.UnquoteMarked | src/converter/converter.ts:21 | a marked string loses its quotes and its marker |
| Unquote.UnquoteQuoted | src/converter/converter.ts:21 | an ordinary quoted string is kept with its quotes |
| Unquote.UnquoteUnmarked | src/converter/converter.ts:172-175 | text without a marked string is unchanged |
| Base64.DecodeEncode | src/utils/http.util.ts:9-13 | base64 decoding gives back the encoded bytes, and encoded text is well formed |
| Base64.EncodeConcat | src/utils/http.util.ts:11 | complete three-byte groups encode independently of what follows |
| Base64.Utf8Ascii | src/utils/http.util.ts:11 | ASCII text is its own UTF-8 encoding, one byte per character |
| Http.GetAuthHeader | src/utils/http.util.ts:6-26 | Basic gives only `Authorization`, `Basic ` followed by text that decodes to the UTF-8 bytes of `username:password`; an api key gives only `X-API-KEY`; Bearer gives only `Authorization: Bearer <token>`; any other type gives no header |
| Http.BasicHeaderInjective | src/utils/http.util.ts:9-13 | for ASCII credentials whose user-id has no colon, two equal Basic headers come from the same user-id and password |
| Http.CredentialsSplit | src/utils/http.util.ts:11 | the `username:password` text splits back at its first colon when the user-id has none |
| Auth.GetAuthDefinition | src/collection/collection-extension.ts:143-187 | the definition's type is the descriptor's; its entries are `password, username`, `token` or `in, value, key`, all non-empty; a missing field gives that scheme's error, and any other type gives the unsupported-type error with the type |
| Auth.AuthDefinitionRoundTrip | src/collection/collection-extension.ts:143-187 | reading a definition back gives the descriptor's type and its scheme's fields, so nothing is lost |
| Auth.AuthDefinitionStable | src/collection/collection-extension.ts:143-187 | rebuilding from the read-back descriptor gives the same definition |
| Auth.ApiKeyExample | src/collection/collection-extension.test.ts:394-410 | the api-key definition lists the location under `in`, then value, then key |
| Auth.SetAuthorization | src/collection/collection-extension.ts:134-141 | every leaf gets the per-item step in place; the folders and the collection's name stay |
| Auth.AuthorizeItem | src/collection/collection-extension.ts:136-139 | an item's auth becomes the definition exactly when the write is forced or the item has a non-`noauth` auth; nothing else changes |
| Auth.SetAuthorizationLeaves | src/collection/collection-extension.test.ts:276-350 | per leaf, the auth is overwritten exactly when forced or non-`noauth`, and the rest of the request, the name and the events stay |
| Auth.SetAuthorizationForced | src/collection/collection-extension.test.ts:276-313 | a forced write leaves every leaf with the definition |
| Auth.SetAuthorizationNoAuthKept | src/collection/collection-extension.test.ts:315-350 | unforced, a `noauth` item and an item without auth are unchanged, and a `basic` item gets the definition |
| Auth.SetAuthorizationIdempotent | src/collection/collection-extension.ts:134-141 | applying the same definition twice is applying it once |
| Ordering.MatchCount | src/collection/collection-extension.ts:114-118 | the number of order entries matching a leaf is zero exactly when no entry lists it |
| Ordering.BucketFrom | src/collection/collection-extension.ts:113-122 | one entry emits every leaf it matches, each once, in visiting order, and nothing else |
| Ordering.UnlistedFrom | src/collection/collection-extension.ts:124-130 | the kept tail holds every leaf no entry matches, each once, in visiting order, and nothing else |
| Ordering.Order | src/collection/collection-extension.ts:106-132 | an empty order list fails with the order error; otherwise the top level becomes a flat list of leaves, the ordered ones, and the name stays |
| Ordering.OrderCount | src/collection/collection-extension.ts:106-132 | a leaf is emitted once per entry that matches it, plus once when it is unmatched and unlisted leaves are kept |
| Ordering.OrderPermutation | src/collection/collection-extension.ts:106-132 | when no leaf matches two entries and unlisted leaves are kept, the result is a permutation of the leaves |
| Ordering.OrderDiscard | src/collection/collection-extension.ts:124-130 | with unlisted leaves discarded, every emitted leaf matches an entry, and every matching leaf is emitted |
| Ordering.OrderFirstBucket | src/collection/collection-extension.ts:113-122 | entries are served in list order: the leaves of the first entry come first, in visiting order |
| Ordering.OrderUnlistedTail | src/collection/collection-extension.ts:124-130 | kept unlisted leaves follow all matched ones, in visiting order |
| Scripts.FindScript | src/collection/collection-extension.ts:77 | the first entry whose name equals the looked-up name, or none when no entry has it |
| Scripts.LookupName | src/collection/collection-extension.ts:71-75 | there is no name for an item whose path is absent or joins to the empty text; otherwise the name is the item's normalized endpoint name |
| Scripts.ScriptEvents | src/collection/collection-extension.ts:90-91 | a pre-request event exactly for non-empty pre-request content, and a test event exactly for non-empty test content, pre-request first |
| Scripts.AttachEntry | src/collection/collection-extension.ts:83-91 | with a template and a body, the body becomes `{{requestBody}}` and the entry's pre-request content becomes the interpolated template, written back into the entry; the events are appended; no other entry changes |
| Scripts.AttachScripts | src/collection/collection-extension.ts:70-94 | an item without a name, or with no entry of its name, is left as it is with the entries; otherwise the first entry of its name is attached |
| Scripts.AddScripts | src/collection/collection-extension.ts:96-104 | an empty entry list fails with the scripts error; otherwise every leaf is visited in order, threading the entry list, and the folders and name stay |
| Scripts.AddScriptsKeeps | src/collection/collection-extension.ts:96-104 | per leaf, only the body is rewritten and events are appended |
| Scripts.AddScriptsWithoutTemplate | src/collection/collection-extension.ts:83 | without a template the entries are never changed, and each leaf gets the events of the first entry of its name |
| Scripts.AttachScenario | src/collection/collection-extension.test.ts:149-177 | a `POST /pet` item gets the entry `post-pet`'s two events, pre-request first |
| Placeholders.ChildName | src/converter/converter.ts:143-163 | a top-level key is its own name; a nested key is the parent's name followed by the capitalized key |
| Placeholders.FixtureNames | src/converter/converter.test.ts:179-201 | the names `categoryId`, `photoUrls1` and `tags0Name` of the test's expected body |
| Placeholders.PlaceholderMarked | src/converter/converter.ts:165-170 | a placeholder carries the `<unquote>` marker exactly for the type names `<long>`, `<integer>`, `<number>` and `<boolean>`, and otherwise is the bare `{{name}}` |
| Placeholders.MarkerExamples | src/converter/converter.ts:165-170 | `<integer>` gets the marker and an ordinary string does not |
| Placeholders.Rewrite | src/converter/converter.ts:143-163 | a non-container is returned unchanged; objects keep their keys and length, and arrays their length; every member or element that is not a container becomes the placeholder of its path (marker plus `{{path}}` for the type names, `{{path}}` otherwise) |
| Placeholders.RewriteSubstitute | src/converter/converter.ts:143-163 | filling exactly the placeholders of each path with the values they replaced gives the original value back: keys, lengths and nesting are kept, and every replaced value became a placeholder of its own path |
| Placeholders.RewriteAsWritten | src/converter/converter.ts:143-163 | the source's rewrite: a non-object is returned as it is, and `null` fails |
| Placeholders.RewriteAsWrittenIsRewrite | src/converter/converter.ts:143-163 | the source's rewrite fails exactly on values holding a `null`, and equals `Rewrite` on all others |
| Placeholders.NullMemberCounterexample | src/converter/converter.ts:146-150 | `{"a": null}` fails the source's rewrite but gets a placeholder from `Rewrite` |
| Placeholders.ParamsToKeys | src/converter/converter.ts:194-203 | every parameter keeps its key and takes the placeholder of its key as its value |
| Placeholders.ParamsUseKeysAsValues | src/converter/converter.ts:190-207 | every leaf's variables and query take their keys' placeholders; folders and name stay |
| Placeholders.ParamsUseKeysAsValuesLeaves | src/converter/converter.ts:190-207 | per leaf, keys and order of the parameters are kept, each value is its key's placeholder, and the method, path, body and auth are untouched |
| Placeholders.ParamsUseKeysAsValuesIdempotent | src/converter/converter.ts:190-207 | applying it twice is applying it once |
| Placeholders.BodyErrorCases | src/converter/converter.ts:179-186 | a body throws exactly when it cannot be read or holds a `null`, with the reader's error or the `null` error; a body that does not throw is rewritten as `Rewrite` does |
| Placeholders.FirstBodyError | src/converter/converter.ts:179-186 | no error exactly when no body throws; otherwise the error of the first leaf, in visiting order, whose body throws |
| Placeholders.UseKeysAsValues | src/converter/converter.ts:179-186 | fails with the first throwing body's error exactly when one throws, so a body holding `null` fails it; otherwise each leaf with a raw body gets it rewritten by `Rewrite`, serialized and unquoted, and every other leaf is unchanged |
| Placeholders.BodyToKeysAgree | src/converter/converter.ts:143-186 | the source's body step and the corrected one agree on every body the source does not throw on; a readable body throws exactly when it holds `null` |
| Placeholders.NullBodyThrows | src/converter/converter.ts:146-150 | a body reading as `{"a": null}` throws the `null` error in the source's step and gets the placeholder `{{a}}` in the corrected one |
| Converter.ConvertToPostmanCollection | src/converter/converter.ts:119-141 | the conversion succeeds exactly with no error, a positive result and one output, which it returns; otherwise it fails with the error, the bare reason or the output-count error, in that order, the two errors printing as `Error: ` and their message |
| Converter.ConvertFirstSettlement | src/converter/converter.ts:119-141 | the callback always settles, and the first settlement is the one `ConvertToPostmanCollection` gives |
| Converter.Convert | src/converter/converter.ts:27-38 | a conversion error is passed on; then it fails exactly when a body throws, unreadable or holding `null`, with the first such error; otherwise each raw body becomes the unquoted serialization of its `Rewrite`, parameters take their keys' placeholders, and names, events, methods, paths and auth are kept |
| Converter.AuthorizeSet | src/converter/converter.ts:76-83 | a set without auth is unchanged; otherwise the definition is applied with the set's `forced`, or the `Error` it throws stops the set |
| Converter.SetScripts | src/converter/converter.ts:85-102 | one script entry per listed endpoint, named after it, holding the contents of its pre-request and test files |
| Converter.SetScriptsCover | src/converter/converter.ts:85-102 | every leaf that can be named finds its entry, and each entry's name survives the `.js` naming of the script catalog |
| Converter.AttachSetScripts | src/converter/converter.ts:85-102 | scripts are attached only when both a scripts path and a template path are given |
| Converter.ProcessSet | src/converter/converter.ts:69-106 | a produced set has the entry's name, a collection renamed as configured, a flat top level, and only leaves some order entry lists; it is built on `UseKeysAsValues`, so a body the source throws on fails the set |
| Converter.ProcessSetForcedAuth | src/converter/converter.ts:76-104 | with a forced auth entry every item of the produced set carries the definition |
| Converter.ProcessSetAuthError | src/converter/converter.ts:76-83 | an auth entry whose definition fails stops its set with that error |
| Converter.ProcessSetEmptyOrder | src/converter/converter.ts:103-104 | an empty order list fails the set with the order error |
| Converter.CreateSets | src/converter/converter.ts:58-113 | a configuration without a non-empty sets array fails first, then a failed conversion; the first failing set fails the whole run with its error; otherwise there is one set per entry, in order |
| Converter.ProcessSets | src/converter/converter.ts:69-107 | succeeds with one result per entry exactly as each step gives it, or fails with the error of the first failing step |
| Converter.CreateSetsAsWritten | src/converter/converter.ts:69-107 | the loop as written: a failure in the first set rejects, while a later failure is lost and the sets pushed before it are returned; a body holding `null` fails the first set and so rejects |
| Converter.ProcessUntilFailure | src/converter/converter.ts:69-107 | the results before the first failing step, and that step's error |
| Converter.CreateSetsAgree | src/converter/converter.ts:58-113 | both versions agree when no set fails or when the first one does |
| Converter.CreateSetsLostError | src/converter/converter.ts:69-107 | with a good first set and a second set lacking a password, the loop as written succeeds with one set, while the fail-fast version reports the auth error |
| Files.GetFile | src/utils/file.util.ts:7-15 | a file's contents, or the empty text for a missing file |
| Files.GetFileList | src/utils/file.util.ts:31-36 | listing a directory gives its regular files in listing order; listing anything else fails |
| Files.FileNames | src/utils/file.util.ts:31-36 | exactly the regular files of the listing, in order |
| Files.MergeNames | src/utils/file.util.ts:41 | all test names first, then pre-request names missing from them |
| Files.MergeNamesCovers | src/utils/file.util.ts:41 | a name is collected exactly when it is in either directory |
| Files.MergeNamesNoRepeats | src/utils/file.util.ts:41 | listings without repeats merge into a list without repeats |
| Files.ParseNameJs | src/utils/file.util.ts:50 | the entry name of `<name>.js` is `<name>` |
| Files.ParseNameNoDot | src/utils/file.util.ts:50 | a file name without a dot is its own entry name |
| Files.GetScriptsContent | src/utils/file.util.ts:38-60 | one entry per merged name, named without its extension and holding both files' contents, empty where a file is missing; a missing subdirectory fails |
| Files.MkdirTarget | src/utils/file.util.ts:22-27 | a folder is created exactly when the path has a separator |
| Files.MkdirTargetOf | src/utils/file.util.ts:22-27 | the folder created for `<dir>/<file>` is `<dir>` |
| Files.WriteFileRead | src/utils/file.util.ts:22-29 | a written file reads back as written, and every other file is unchanged |
| Files.JoinSplit | src/utils/file.util.ts:23-24 | joining the pieces of a split gives the path back |
| Executor.GetMarkdown | src/executor/executor.ts:252-265 | a header line, a separator line, then one row per listed endpoint, every line ended by a newline |
| Executor.MarkdownTable | src/executor/executor.ts:252-265 | read back, the table has the two header lines, one row per endpoint and an empty last piece, and each row splits at the bars into that endpoint's cells |
| Executor.GetCsv | src/executor/executor.ts:267-278 | one newline-ended line per listed endpoint, in order, with no header |
| Executor.CsvTable | src/executor/executor.ts:267-278 | read back, there is one line per endpoint, then an empty piece, and each line splits at the semicolons into the endpoint's method, path and, if shown, normalized name |
| Executor.HeaderCheck | src/executor/executor.ts:325-339 | a lone username, a lone password, and Basic together with an api key or bearer token are each rejected with their message; passing means the Basic credentials are complete or absent, and absent when another scheme is given |
| Executor.ConvertHeaderCheck | src/executor/executor.ts:127-141 | the convert command's check: Basic with an api key first, then the lone credentials; Basic with a bearer token passes |
| Executor.RequestHeaders | src/executor/executor.ts:143-155 | the later assignment wins: bearer over api key over Basic, and no header without any |
| Executor.CheckedBasicSent | src/executor/executor.ts:217-229 | after the list and sets check, given Basic credentials are the ones sent, and alone |
| Executor.ConvertCheckDropsBasic | src/executor/executor.ts:127-155 | Basic with a bearer token passes the convert check, is rejected by the other commands, and the credentials are not sent |
| Executor.PostProcess | src/executor/executor.ts:18-48 | reorder keeping unlisted leaves, attach scripts, rename, then auth; each failure stops with its message before anything is written; on success the name is the configured one, the leaves keep their names, methods and paths, and a forced auth reaches every item |
| Executor.AuthStep | src/executor/executor.ts:34-41 | skipped without a type; a failing definition stops with the auth message; a forced one reaches every item |
| Executor.ConvertAndWrite | src/executor/executor.ts:18-48 | a rejected conversion prints exactly what it was rejected with, so a bare reason has no `Error: ` prefix; a failure writes nothing; on success the collection is written to the output path and no other file changes |
| Executor.LoadOrder | src/executor/executor.ts:57-71 | no order file gives no order; a missing file or a parse failure stops with its message; a file whose JSON is falsy loads as no order, so the reorder is skipped |
| Executor.LoadScripts | src/executor/executor.ts:73-95 | a template without a catalog is rejected; a catalog passes when it or a subdirectory exists, then a missing subdirectory or template fails |
| Executor.CollectionAuthOf | src/executor/executor.ts:98-115 | an auth descriptor exactly when a type is given, with the given `forced` |
| Executor.PrepareConvert | src/executor/executor.ts:50-163 | the order file, then the template check, then scripts, then the input; a URL input passes the convert command's own header check first and is fetched with the request headers |
| Executor.ConvertFetchesWithBearer | src/executor/executor.ts:127-157 | with Basic credentials and a bearer token the convert command fetches with the bearer header alone, while the list command rejects the same options |
| Executor.LocalInputIgnoresHeaders | src/executor/executor.ts:117-125 | for a local input the header options change nothing, in all three commands |
| Executor.TemplateNeedsScripts | src/executor/executor.ts:73-76 | a template without a scripts catalog is rejected before the input is looked at |
| Executor.PrepareSets | src/executor/executor.ts:179-237 | the sets file must exist and parse before the input is checked |
| Executor.PrepareList | src/executor/executor.ts:307-366 | a URL input is fetched only after passing the header check |
| Executor.SetFilePathInjective | src/executor/executor.ts:171 | different set names give different files |
| Executor.WriteSetsFiles | src/executor/executor.ts:170-172 | each set's file holds its collection unless a later set of the same name overwrites it; files of no set are untouched |
| Executor.CreateAndWriteSets | src/executor/executor.ts:165-177 | a rejected set creation writes nothing and prints `Failed to create sets. Reason ` followed by what it was rejected with; otherwise every set is written |
| Executor.ListAndWrite | src/executor/executor.ts:280-305 | a rejected conversion prints `Failed to convert open API file to postman collection. Reason ` followed by what it was rejected with; CSV or Markdown writes that table to the output path and nothing else; any other type writes nothing |

## Left out

- Command-line wiring and prompting (`src/cli.ts`, `src/index.ts`, `src/questions/questions.ts`): argument parsing only.
- Console output: `consolePrint`, `ShowSuccess`, `ShowError` and the logger. Errors are returned as `Err` values instead.
- The network fetch `GetRemoteFile` and `IsURL`, which uses the WHATWG URL parser. Whether the input is a URL is a parameter. A remote input becomes a `Remote` plan holding its URL and request headers.
- The `openapi-to-postmanv2` conversion itself. Its callback arguments are the `ConversionOutcome` input.
- The real file system. `Files.FileSystem` is a value of files and directory listings. `WriteFile` creates its folder (`Files.MkdirTarget`), but the directory listings are not updated.
- `JSON.parse` and `JSON.stringify`: parameters. Only the unquote pass on the serialized text is modelled. A reader's error is the text its thrown error prints as. The `null` error is the `TypeError` text of the V8 engine.
- Executor.LoadOrder: the reader maps an order file's JSON to an order list, or to none for a falsy value. A truthy value without an `order` array, on which `Order` throws a `TypeError`, is not told apart.
- `postman-collection` internals:
  - item ids: items are identified by their position among the leaves, so ids are assumed unique;
  - the `Script` object of `getEventWithScript`, which splits `exec` into lines: an event holds its text;
  - `RequestAuth` objects: an auth is its type and its entries.
- `NormalizedEndpointNameFn` (`src/collection/collection-extension.ts:56`): a public alias of the naming function, not separately modelled.
- Promise plumbing. `CreateSets` is a result or an error. The effect of calling `resolve` inside the loop is modelled separately (see Findings).
- `$` patterns in `String.replace` replacement values: values are inserted literally.
- Unicode case mapping: `toLowerCase`, `toLocaleLowerCase` and `toUpperCase` map ASCII letters only.
- `src/models/paths.ts` is not part of this model. The subdirectory names `pre-request` and `test` are taken from the test fixtures, and the separator is `/`.
- Strings.LettersOnlyWithDash: the literal test strings (`'#$%^&*(+a)(*&^%#-+/32 G 15646'` → `'a-G'` and the rest) are not stated one by one. The general characterisation covers them: kept characters with their counts (`FilterMultiset`), in order (`FilterConcat`, `FilterSingle`), runs of dropped characters vanishing (`FilterRuns`).
- Strings.LettersNumbersWithDash: the literal test strings are likewise covered only by the general characterisation.
- Http.GetAuthHeader: the test vector `dXNlcm5hbWU6cGFzc3dvcmQ=` is not stated literally. The Basic value is characterised by its round trip through `Base64.Decode` instead.
- Template.ReplaceTokenRender: agreement with `Fill` is proved for literal text that holds no `<%%=` and does not end in a non-empty proper prefix of it, and for token names without `<`. Other text, such as a literal `<%%=` that never closes, is outside the lemma.
- Template.InterpolateRender: inherits the condition of `ReplaceTokenRender`, for the template and for the text after the request-body pass.
- Template.InterpolateTwoTokens: states the template test's shape with arbitrary literal text between the tokens, not the test's exact JSON text.

## Findings

| source | as written | input that shows it | evidently intended | confidence | as-written member | corrected member |
|---|---|---|---|---|---|---|
| src/converter/converter.ts:143-163 | `changeValuesToKeys` treats every value whose `typeof` is `object` as a container. `typeof null` is `object`, and `Object.keys(null)` throws. | a request body example `{"a": null}`: the conversion is rejected with the `TypeError` | `null` is a value like any other and gets the placeholder `{{a}}` | not executed | Placeholders.RewriteAsWritten (Placeholders.NullMemberCounterexample) | Placeholders.Rewrite (Placeholders.RewriteSubstitute) |
| src/converter/converter.ts:69-107 | `CreateSets` calls `resolve` after every set, inside the loop. The first settlement wins, so an error in any set after the first is lost. | two sets, the second with a `basic` auth entry without a password | the whole run rejects with the auth error, as it does when the first set fails | not executed | Converter.CreateSetsAsWritten (Converter.CreateSetsLostError) | Converter.CreateSets (Converter.CreateSetsAgree) |
| src/executor/executor.ts:127-141 | The convert command rejects Basic credentials only together with an api key, unlike the list and sets commands (`src/executor/executor.ts:210-215`). The bearer header then replaces the Basic one. | username `u`, password `p` and a bearer token `t` for a URL input | the request is rejected with "Please use either basic auth, X-API-KEY or Bearer token", as in the other commands | not executed | Executor.ConvertHeaderCheck (Executor.ConvertCheckDropsBasic) | Executor.HeaderCheck (Executor.CheckedBasicSent) |
