# gbgen, modelled in Dafny

gbgen generates Go source for the feature flags of a GrowthBook server. It
pages through the Features API, sorts the catalog by id, gives every feature a
de-duplicated `Feature<PascalCase>` name, and writes either a keys-only file (a
`FeatureKey` constant per feature) or a typed file (a typed helper variable per
feature), optionally with a `FeatureList`. Its configuration is layered from
defaults, a JSON/YAML/TOML file, the environment and explicit overrides, and is
validated with user-facing messages. A build-time tool pre-filters the
GrowthBook OpenAPI document down to the operations of one tag and the
components they need, and promotes the inline `valueType` enum into a named
schema.

The model has one module per concern:

- `Wrappers`: `Option` and `Result`.
- `Text`: the Go string functions the core relies on (`strings.TrimSpace`, `Split`, `ReplaceAll`, `TrimRight`, `%q`, `strconv.ParseBool`, `Itoa`, byte-wise string order).
- `Identifiers`: `splitNonAlnum` and `toExportedIdentifier`.
- `Meta`: the paging fetch, the environment flag, the sort and `nameAndDedupe`.
- `Render`: what both renderers share, namely the comment block above a feature, the default package name, and the `renderPreamble`/`formatGo` collaborators.
- `KeysRender`: the keys-only renderer.
- `TypedRender`: the typed renderer and `typedFeatureTypeExpr`.
- `Codec`: `Config`, `DetectFormat`, `normalizeFormat`, and the format switch of `Marshal`/`Unmarshal`.
- `Load`: `Load`, `Defaults`, `merge`, `applyEnv`, `applyOverrides` and `loadFromFile`.
- `Validate`: `ValidationError.Error`, `humanizeValidationError`, `toConfigPath` and `Config.Validate`.
- `Generator`: `NewGenerator` and `Generate`.
- `Prefilter`: the OpenAPI pre-filter.

Code that changes state step by step is modelled as methods with loops:

- the fetch loop;
- the sort, an insertion sort on an array;
- the counter map of `nameAndDedupe`;
- the buffers of both renderers;
- the builders of `splitNonAlnum` and `toExportedIdentifier`;
- the problem list and `Error()`;
- the map-filling loops and the breadth-first traversal of the pre-filter;
- the enum rewrite.

Each such method is proved against a specification function, and the
properties are proved about those functions.

Three behaviours of the code are easy to miss, and the model keeps them:

- The catalog sort is `sort.Slice`, which is not stable. The model promises a sorted permutation and nothing about the order of equal ids.
- `promoteValueTypeEnum` installs an empty `schemas` map when `components.schemas` is missing or not a map. It does so before it knows whether there are values to promote, so the document changes even when none are found. `Prefilter.PromoteValueTypeEnum` states that, and `Prefilter.SchemasAlreadyMap` shows the document is unchanged when `schemas` already was a map.
- `buildMinComponents` creates a `securitySchemes` section whenever some scheme is needed and the input has a `securitySchemes` map, even when that map defines none of the needed schemes. The section then makes the pre-filter emit `components`. `Prefilter.BuildMinComponents` states the exact set of sections.

## Model

| member | source | states |
|---|---|---|
| Text.EscapeChar | internal/generator/keys.go:57 | a character inside a `%q` literal: quote and backslash escaped, printable characters kept, controls as `\a`..`\v` or `\xNN`, any other as `\uNNNN` or `\UNNNNNNNN`; every written character is printable |
| Text.Quote | internal/generator/keys.go:57 | the `%q` literal is quoted, holds only printable characters and no newline |
| Text.EscapeCharKeepsPrintable | internal/generator/keys.go:57 | a printable character other than quote and backslash is written as it is |
| Text.EscapeKeepsPlain | internal/generator/keys.go:57 | printable text without quote or backslash is quoted as it is |
| Text.EscapeThree | internal/generator/keys.go:57 | a three-character string is escaped character by character |
| Text.EscapeNoBreakSpace | internal/generator/keys.go:57 | the no-break space U+00A0 is not printable and is escaped as `\u00a0` |
| Text.QuoteNoBreakSpaceExample | internal/generator/keys.go:57 | a no-break space is written as `\u00a0` |
| Identifiers.SplitNonAlnum | internal/generator/keys.go:92-110 | returns exactly the token list of the id; every token is non-empty and made only of letters and digits, and together the tokens are the id with every other character removed |
| Identifiers.TokensWellFormed | internal/generator/keys.go:92-110 | the tokens of any id are non-empty, alphanumeric, and concatenate to the id's letters and digits |
| Identifiers.SplitFromTokens | internal/generator/keys.go:95-108 | from any alphanumeric partial token, the scan yields only non-empty alphanumeric tokens |
| Identifiers.SplitFromConcat | internal/generator/keys.go:101-108 | the tokens the scan yields concatenate to the partial token followed by the rest's letters and digits |
| Identifiers.ToExportedIdentifier | internal/generator/keys.go:72-90 | the identifier is never empty and holds only letters and digits (no `_`); it is "Unknown" exactly when the id has no letter or digit, and otherwise matches the id's letters and digits character by character up to upper-casing |
| Identifiers.WriteCapitalized | internal/generator/keys.go:76-85 | the builder loop writes each token with its first character upper-cased and the rest unchanged, one after the other |
| Identifiers.CapitalizedJoinMatches | internal/generator/keys.go:76-85 | capitalising and joining alphanumeric tokens only changes case: the result has the tokens' length and characters up to upper-casing, and stays alphanumeric |
| Identifiers.ExportedIdentifierShape | internal/generator/keys.go:72-90 | the exported identifier is non-empty and alphanumeric, "Unknown" iff there are no letters or digits, and otherwise the capitalised tokens |
| Identifiers.TwoTokens | internal/generator/keys.go:101-108 | two alphanumeric characters around a separator give two one-character tokens |
| Meta.FeatureHasNoActiveEnvironments | internal/generator/meta.go:85-95 | true iff no environment is enabled, and in particular when there are none |
| Meta.Convert | internal/generator/meta.go:40-50 | a page contributes at most one entry per feature, and never one with an empty id |
| Meta.ConvertPage | internal/generator/meta.go:40-50 | the inner loop appends the page's features with a non-empty id, in page order, with the environment flag derived |
| Meta.LogExtends | internal/generator/meta.go:31-56 | the next request goes to the offset the previous page gave; a response that does not continue the paging closes a well-formed request log; the collected entries grow by exactly the new page's entries |
| Meta.InsertLast | internal/generator/meta.go:58 | inserting the next element keeps the sorted prefix sorted and the array a permutation of itself |
| Meta.SortById | internal/generator/meta.go:58 | the catalog ends up sorted ascending by id and is a permutation of what it was |
| Meta.FetchAllFeatureMeta | internal/generator/meta.go:26-60 | the requests ask for pages of 100, starting at offset 0, each later one at the previous page's `NextOffset`, and none is sent after a page without more; an API error or an empty response aborts with that error; otherwise the result is sorted by id and is a permutation of the entries with a non-empty id from all pages |
| Meta.Bases | internal/generator/meta.go:67 | one base name per feature, `"Feature"` + the exported identifier of its id, in order |
| Meta.NameAndDedupe | internal/generator/meta.go:62-83 | one named feature per feature, in order, with id, description, flag and value type copied; each name is the base name for its first occurrence and `<base>_<k>` for the k-th; all names are pairwise distinct |
| Meta.CountStep | internal/generator/meta.go:68 | incrementing the counter of the current base name keeps the map equal to the occurrence counts so far |
| Meta.BaseNameShape | internal/generator/meta.go:67 | a base name never contains `_` |
| Meta.DedupedNameInjective | internal/generator/meta.go:69-72 | for bases without `_`, a name determines both its base and its occurrence number |
| Meta.CountGrows | internal/generator/meta.go:68-70 | a later occurrence of a base name has a strictly higher count |
| Meta.DedupedAtDistinct | internal/generator/meta.go:66-80 | two positions never receive the same name |
| Meta.NamesPairwiseDistinct | internal/generator/meta.go:62-83 | all synthesized names of a catalog are pairwise distinct |
| Meta.NameAtShape | internal/generator/meta.go:67 | every synthesized name starts with `Feature` |
| Meta.DedupedNamePrefix | internal/generator/meta.go:69-72 | every de-duplicated name starts with its base name |
| Meta.CountFirst | internal/generator/meta.go:68-69 | a base name that has not occurred before is counted once |
| Meta.NameAtFirstOccurrence | internal/generator/meta.go:67-72 | the first occurrence of a base name keeps it unchanged |
| Meta.SameBaseTwice | internal/generator/meta.go:67-72 | of two features sharing a base name, the first keeps it and the second gets `_2` |
| Meta.DedupeExample | internal/generator/meta.go:62-83 | ids "a-b" and "a_b" are named `FeatureAB` and `FeatureAB_2` |
| Render.CommentLines | internal/generator/keys.go:46-52 | one `\t// <line>` per comment text, in order |
| Render.DescriptionLinesShape | internal/generator/keys.go:44-53 | every comment line a description yields is non-empty, already trimmed, and holds no newline |
| Render.NonBlankLinesShape | internal/generator/keys.go:46-50 | the kept pieces of a split description are non-empty, trimmed and newline-free |
| Render.DeprecationMarker | internal/generator/keys.go:54-56 | the deprecation comment appears above a feature without active environments, and otherwise only if its description has that very line |
| Render.CommentLineIsComment | internal/generator/keys.go:51 | a written comment line is a comment and contributes no code |
| Render.CommentLinesAreComments | internal/generator/keys.go:44-53 | a description's comment block contributes no code |
| Render.EntryCommentsAreComments | internal/generator/keys.go:44-56 | the whole block above a feature contributes no code |
| Render.CommentLineInjective | internal/generator/keys.go:51 | different comment texts give different comment lines |
| Render.Code | internal/generator/keys.go:51 | dropping the comment lines never adds lines |
| Render.WriteEntryComments | internal/generator/keys.go:44-56 | appends the description's comment lines and, iff the feature has no active environments, the deprecation line |
| Render.WriteDescription | internal/generator/keys.go:44-53 | appends one comment line per non-blank trimmed line of the trimmed description |
| KeysRender.KeyListItems | internal/generator/keys.go:63-65 | one `\t<Name>,` per feature, in order |
| KeysRender.WriteKeyEntries | internal/generator/keys.go:43-58 | the loop appends each feature's comments and then its constant, feature after feature |
| KeysRender.WriteKeyListItems | internal/generator/keys.go:63-65 | the loop writes the list items in feature order |
| KeysRender.RenderFeatureKeysGo | internal/generator/keys.go:12-70 | returns the preamble error as is, and otherwise the formatted preamble plus body of the named catalog |
| KeysRender.KeyDecls | internal/generator/keys.go:57 | one `<Name> FeatureKey = "<id>"` declaration per feature, in order |
| KeysRender.KeyEntriesCodeLast | internal/generator/keys.go:43-58 | adding one feature adds exactly its declaration to the code of the const block |
| KeysRender.KeyEntriesCode | internal/generator/keys.go:43-58 | with the comment lines dropped, the const block is the declarations, one per feature, in order |
| KeysRender.KeyDeclsInOrder | internal/generator/keys.go:12-59 | for any catalog, the const block's code is one declaration per named feature, in catalog order |
| KeysRender.KeyEntriesIndented | internal/generator/keys.go:43-58 | every line of the const block is tab-indented |
| KeysRender.KeysFrontShape | internal/generator/keys.go:40-59 | the body opens with `type FeatureKey string`, a blank line and `const (`, and holds no list opener before the list |
| KeysRender.KeysBodyShape | internal/generator/keys.go:40-67 | `type FeatureKey string` and `const (` always open the body; the `FeatureList` literal is present iff the list is requested, and then ends the body with one item per name |
| KeysRender.KeysPreambleShape | internal/generator/keys.go:15-32 | the package name is the configured one, or "features" when it is empty; no import |
| TypedRender.TypeExprRoundTrip | internal/generator/typed.go:82-95 | boolean, string, number and json map to distinct wrappers and back; anything else fails with "unsupported valueType" quoting the type |
| TypedRender.WrappedValueTypeRoundTrip | internal/generator/typed.go:82-95 | each wrapper is produced by exactly its own value type |
| TypedRender.TypedListItems | internal/generator/typed.go:73-75 | one `\tFeatureKey("<id>"),` per feature, in order |
| TypedRender.TypedEntriesPrefixFailure | internal/generator/typed.go:62-65 | once a feature fails, rendering the whole catalog fails with that same error |
| TypedRender.TypedEntriesLast | internal/generator/typed.go:47-68 | a new feature keeps an earlier error, fails with its own error if unsupported, and otherwise succeeds |
| TypedRender.AllSupportedLast | internal/generator/typed.go:62-65 | all features are supported iff the earlier ones are and the last one is |
| TypedRender.TypedEntriesFailsIff | internal/generator/typed.go:47-68 | rendering the entries fails iff some feature has an unsupported value type |
| TypedRender.TypedEntriesFirstError | internal/generator/typed.go:62-65 | the error names the first feature with an unsupported value type |
| TypedRender.TypedDecls | internal/generator/typed.go:67 | one declaration per feature, in order: the k-th is `<Name> = <wrapper>("<id>")` for the k-th feature, its wrapper the one its value type maps to |
| TypedRender.TypedEntriesCode | internal/generator/typed.go:47-68 | when all types are supported, the var block's code is the declarations, one per feature, in order |
| TypedRender.TypedDeclsInOrder | internal/generator/typed.go:18-69 | for any fully supported catalog, the var block's code is one declaration per named feature, in catalog order |
| TypedRender.TypedEntriesIndented | internal/generator/typed.go:47-68 | every line of the var block is tab-indented |
| TypedRender.TypedBodyShape | internal/generator/typed.go:42-77 | `type FeatureKey string` and the `FeatureList` literal appear iff the list is requested; `var (` always does |
| TypedRender.WriteTypedEntries | internal/generator/typed.go:47-68 | the loop fails exactly when the entries do, with the same error, and otherwise appends them |
| TypedRender.WriteTypedListItems | internal/generator/typed.go:71-77 | the loop writes the list items in feature order |
| TypedRender.RenderTypedFeaturesGo | internal/generator/typed.go:12-80 | returns the preamble error, or the first unsupported feature's error, and otherwise the formatted preamble plus body |
| TypedRender.TypedPreambleShape | internal/generator/typed.go:13-37 | the package name is the configured one, or "features" when it is empty; the `types` package is always imported |
| Codec.DotSuffixSnoc | internal/config/codec.go:27 | an extension followed by one more plain character is still the path's extension |
| Codec.ExtShape | internal/config/codec.go:27 | a non-empty extension is a suffix of the path that starts with its only dot and holds no `/` |
| Codec.ExtEmptyNoDot | internal/config/codec.go:27 | an empty extension means the last path element has no dot |
| Codec.ExtOfSuffix | internal/config/codec.go:27 | `<base>.<ext>` has the extension `.<ext>` |
| Codec.ExtOfDotless | internal/config/codec.go:27 | a last element without a dot has no extension |
| Codec.NormalizeFormatSpec | internal/config/codec.go:77-88 | accepts exactly json, yaml, yml and toml up to case and surrounding space, always giving a supported format ("yml" is YAML), and otherwise fails quoting the input |
| Codec.NormalizeFormatIgnoresCaseAndSpace | internal/config/codec.go:78 | names equal up to case and surrounding space normalise alike |
| Codec.NormalizeFormatCanonical | internal/config/codec.go:77-88 | every supported format normalises to itself |
| Codec.ToLowerOfLower | internal/config/codec.go:78 | lower-casing a string with no upper-case letter changes nothing |
| Codec.DetectFormatSpec | internal/config/codec.go:23-41 | a non-blank override alone decides; otherwise the lower-cased extension picks JSON, YAML or TOML, and an empty or unknown extension gives YAML; the result is always supported |
| Codec.DetectFormatIgnoresExtensionCase | internal/config/codec.go:27 | paths whose extensions differ only in case give the same format |
| Codec.MarshalFormatSwitch | internal/config/codec.go:43-54 | each supported format uses its own encoder; any other fails with the unsupported-format error |
| Codec.UnmarshalFormatSwitch | internal/config/codec.go:56-75 | each supported format uses its own decoder, with its error prefixed "parse <format> config: "; any other format fails with the unsupported-format error |
| Codec.NormalizeFormatYmlExample | internal/config/codec.go:78-82 | " YML " is YAML |
| Codec.NormalizeFormatXmlExample | internal/config/codec.go:85-86 | "xml" is rejected |
| Codec.DetectFormatUpperCaseExample | internal/config/codec.go:27-34 | "gbgen.TOML" is TOML |
| Codec.DetectFormatUnknownExample | internal/config/codec.go:37-39 | an unknown extension gives YAML |
| Codec.DetectFormatDirDotExample | internal/config/codec.go:27-36 | a dot in a directory name is not an extension |
| Codec.DetectFormatOverrideExample | internal/config/codec.go:24-26 | the override wins over the extension |
| Load.LoadLayers | internal/config/load.go:27-46 | `Load` fails exactly when the file layer fails, with its error, and otherwise layers defaults, file, environment and overrides |
| Load.LayeredPrecedence | internal/config/load.go:23-46 | field by field, the value is the override if set, else a non-empty environment variable (a flag only if it parses), else the file's non-empty value, else the default |
| Load.MergeBlank | internal/config/load.go:92-123 | merging a configuration that sets nothing changes nothing |
| Load.MergeSpec | internal/config/load.go:92-123 | empty overlay strings and a missing overlay project id keep the base value, and set ones replace it; each flag is the disjunction of base and overlay |
| Load.MergeNeverClearsFlags | internal/config/load.go:113-120 | merging can switch a flag on but never off |
| Load.MergeIdempotent | internal/config/load.go:92-123 | merging the same overlay twice is merging it once, and a configuration merged with itself is itself |
| Load.ApplyOverridesSpec | internal/config/load.go:162-185 | exactly the fields with a set override take its value, the rest are unchanged; no overrides change nothing |
| Load.ApplyOverridesIdempotent | internal/config/load.go:162-185 | applying the same overrides twice is applying them once |
| Load.EnvPrefixSpec | internal/config/load.go:126-129 | the prefix is the trimmed given one, or "GBGEN" when that is blank; never empty |
| Load.EnvFlagSpec | internal/config/load.go:148-157 | a flag variable that does not parse as a bool leaves the flag; one that parses replaces it, so "false" overrides a file's true |
| Load.ApplyEnvUnset | internal/config/load.go:125-160 | with none of the seven `<prefix>_<NAME>` variables set, the environment changes nothing |
| Load.ConfigFormatSpec | internal/config/load.go:76-87 | exactly the lower-cased .json, .yml, .yaml and .toml select a format, the same one `DetectFormat` gives; any other extension is an error |
| Load.LoadFromFileSpec | internal/config/load.go:70-90 | a read error is returned as is; an unknown extension fails; otherwise the bytes are decoded in the extension's format |
| Load.LoadWithFile | internal/config/load.go:31-45 | with a readable, decodable file, `Load` layers its content |
| Load.DefaultPrefix | internal/config/load.go:127-129 | an empty prefix becomes "GBGEN" |
| Load.LoadFromYamlThenEnvOverrides | internal/config/load_test.go:9-40 | the YAML file's base URL survives while the environment's key and package name win |
| Load.LoadOverridesWin | internal/config/load_test.go:42-64 | an explicit output directory beats both the environment and the file |
| Load.LoadTypedFileTrueEnvFalseWins | internal/config/load_test.go:66-85 | `GBGEN_EMIT_TYPED_FEATURES=false` turns off a file's true |
| Load.LoadListFileTrueEnvFalseWins | internal/config/load_test.go:87-106 | `GBGEN_EMIT_FEATURE_LIST=false` turns off a file's true |
| Load.YamlFile | internal/config/load.go:76-89 | a `.yaml` file is decoded with the YAML decoder, its error prefixed |
| Validate.Items | internal/config/validate.go:21-25 | one ` - <p>` item per problem, in order |
| Validate.Error | internal/config/validate.go:15-27 | the builder loop produces the message text |
| Validate.ListingJoin | internal/config/validate.go:21-25 | the loop's output is the items joined by newlines plus a final newline |
| Validate.TrimOneNewline | internal/config/validate.go:26 | the final trim removes exactly the one trailing newline |
| Validate.ErrorTextJoined | internal/config/validate.go:19-26 | with problems, the message is the header line and the items joined by newlines, with no trailing newline |
| Validate.ErrorTextLines | internal/config/validate.go:15-27 | no problems give "invalid configuration"; otherwise the message splits back into "invalid configuration:" and one ` - <p>` line per problem, in order |
| Validate.ProblemsOf | internal/config/validate.go:50-61 | one problem per field error, in order, made from its config path and tag |
| Validate.HumanizeValidationError | internal/config/validate.go:38-63 | a list of field errors becomes a `ValidationError` with one problem per error, in order; any other error is returned as is |
| Validate.Validate | internal/config/validate.go:30-36 | nothing when the validator accepts; otherwise the humanized error |
| Validate.HumanizedSpec | internal/config/validate.go:38-63 | only field-error lists are translated, one problem per field error in order; every other error is passed on unchanged |
| Validate.StripNamespaceOf | internal/config/validate.go:76-78 | the leading "Config." is dropped and the rest is kept |
| Validate.LowerGrowthBook | internal/config/validate.go:81-82 | "GrowthBook." becomes "growthbook." and the field is left alone |
| Validate.LowerGenerator | internal/config/validate.go:81-82 | "Generator." becomes "generator." and the field is left alone |
| Validate.ReplaceLast | internal/config/validate.go:83-87 | a field name at the end of a path, not started earlier, is replaced once |
| Validate.KeepsClientFields | internal/config/validate.go:83-85 | a path without 'A' and 'j' passes the GrowthBook field renames unchanged |
| Validate.KeepsOutputFields | internal/config/validate.go:86-87 | a path without 'O' and 'P' passes the generator field renames unchanged |
| Validate.GrowthBookKeepsOutputFields | internal/config/validate.go:86-87 | a GrowthBook key passes the generator field renames unchanged |
| Validate.GeneratorKeepsClientFields | internal/config/validate.go:83-85 | a generator key passes the GrowthBook field renames unchanged |
| Validate.RenameThenKeep | internal/config/validate.go:83-85 | a rename at the end of the path followed by two renames whose patterns cannot occur yields the renamed path |
| Validate.KeepRenameKeep | internal/config/validate.go:83-85 | a rename at the end of the path between two renames whose patterns cannot occur yields the renamed path |
| Validate.ClientBaseURL | internal/config/validate.go:83-85 | `growthbook.APIBaseURL` becomes `growthbook.apiBaseURL` |
| Validate.ClientAPIKey | internal/config/validate.go:83-85 | `growthbook.APIKey` becomes `growthbook.apiKey` |
| Validate.OutputOutputDir | internal/config/validate.go:86-87 | `generator.OutputDir` becomes `generator.outputDir` |
| Validate.OutputPackageName | internal/config/validate.go:86-87 | `generator.PackageName` becomes `generator.packageName` |
| Validate.LowerBaseURL | internal/config/validate.go:83-87 | all five field renames turn `growthbook.APIBaseURL` into `growthbook.apiBaseURL` |
| Validate.LowerAPIKey | internal/config/validate.go:83-87 | all five field renames turn `growthbook.APIKey` into `growthbook.apiKey` |
| Validate.LowerOutputDir | internal/config/validate.go:83-87 | all five field renames turn `generator.OutputDir` into `generator.outputDir` |
| Validate.LowerPackageName | internal/config/validate.go:83-87 | all five field renames turn `generator.PackageName` into `generator.packageName` |
| Validate.ToConfigPathBaseURL | internal/config/validate.go:74-90 | `Config.GrowthBook.APIBaseURL` is reported as `growthbook.apiBaseURL` |
| Validate.ToConfigPathAPIKey | internal/config/validate.go:74-90 | `Config.GrowthBook.APIKey` is reported as `growthbook.apiKey` |
| Validate.ToConfigPathOutputDir | internal/config/validate.go:74-90 | `Config.Generator.OutputDir` is reported as `generator.outputDir` |
| Validate.ToConfigPathPackageName | internal/config/validate.go:74-90 | `Config.Generator.PackageName` is reported as `generator.packageName` |
| Generator.Generate | internal/generator/generator.go:38-52 | fetches with the configured client and project; a fetch error is returned as is, otherwise the catalog is rendered in the configured mode |
| Generator.RenderCatalog | internal/generator/generator.go:44-51 | the typed renderer iff EmitTypedFeatures, with the package name and EmitFeatureList passed through; the keys renderer otherwise |
| Generator.TrimRightCharTail | internal/generator/generator.go:18 | trailing slashes make no difference to the trim |
| Generator.NormalizeKeepsApiPath | internal/generator/generator.go:18-21 | a URL already ending in "/api/v1" is kept |
| Generator.NormalizeShape | internal/generator/generator.go:18-21 | the normalised URL always ends in "/api/v1", starts with the trimmed URL, and adds at most "/api/v1" |
| Generator.NormalizeIdempotent | internal/generator/generator.go:18-21 | normalising twice is normalising once |
| Generator.NormalizeIgnoresTrailingSlashes | internal/generator/generator.go:18 | URLs differing only in trailing slashes normalise alike |
| Generator.NewGeneratorRequests | internal/generator/generator.go:17-26 | every request goes to the normalised base URL, carries `Authorization: Bearer <APIKey>` and the configured project, and asks for 100 features |
| Generator.FetchFailureNotRendered | internal/generator/generator.go:39-42 | a failed fetch is returned as is, whatever the mode and toolchain |
| Generator.TypedModeUnsupported | internal/generator/generator.go:45-46 | in typed mode, a catalog with an unsupported value type fails with the error of the first such feature |
| Prefilter.ListHasStringSpec | tools/openapi_prefilter/main.go:127-132 | the list holds the tag iff some entry is that string |
| Prefilter.OperationHasTagSpec | tools/openapi_prefilter/main.go:122-133 | an operation carries the tag iff its "tags" is a list holding the tag as a string |
| Prefilter.FilterItem | tools/openapi_prefilter/main.go:93-117 | copies the path-level "parameters" and, under each lower-cased HTTP method, a tagged operation spelled that way; the result is empty iff nothing is kept |
| Prefilter.FilterPathsByTag | tools/openapi_prefilter/main.go:90-120 | a path is kept iff its item is a map and something of it survives, and each kept path holds its filtered item |
| Prefilter.FilteredItemShape | tools/openapi_prefilter/main.go:99-114 | a filtered item holds only "parameters" and lower-case HTTP methods whose operations carry the tag |
| Prefilter.ParseComponentRefSound | tools/openapi_prefilter/main.go:219-229 | whatever parses is "#/components/<section>/<name>", with neither part holding '/' |
| Prefilter.ParseComponentRefComplete | tools/openapi_prefilter/main.go:219-229 | every such reference parses back to its section and name |
| Prefilter.RefsOfObj | tools/openapi_prefilter/main.go:233-240 | a map reports its own "$ref" string and everything reported below it |
| Prefilter.RefsOfArr | tools/openapi_prefilter/main.go:241-244 | a list reports exactly what its items report |
| Prefilter.AddRefs | tools/openapi_prefilter/main.go:145-158 | every reported reference under "#/components/" is marked needed, and those not needed before are queued once each |
| Prefilter.DistinctAppend | tools/openapi_prefilter/main.go:149-153 | queuing only references that are not yet needed keeps every reference queued at most once |
| Prefilter.RefsOfEntry | tools/openapi_prefilter/main.go:182-198 | a component reports nothing beyond what the whole components tree reports |
| Prefilter.PopSkipped | tools/openapi_prefilter/main.go:166-185 | skipping a seen or unresolvable reference keeps the queue bookkeeping and the copy invariant |
| Prefilter.PopSkippedExplored | tools/openapi_prefilter/main.go:166-185 | skipping such a reference keeps the exploration invariant |
| Prefilter.PopResolvedFrontier | tools/openapi_prefilter/main.go:165-198 | visiting a reference and queuing its new references keeps the queue bookkeeping |
| Prefilter.PopResolvedExplored | tools/openapi_prefilter/main.go:195-198 | following a resolved component's references keeps the needed set within every closed set |
| Prefilter.PopResolvedCopied | tools/openapi_prefilter/main.go:187-193 | copying a resolved component into its output section keeps every copied entry equal to the input |
| Prefilter.PopQueueTail | tools/openapi_prefilter/main.go:149-167 | popping the head and queuing new references keeps the queue the tail of the queuing order |
| Prefilter.PopNeeded | tools/openapi_prefilter/main.go:149-167 | popping the head and queuing exactly the newly needed references keeps needed = visited + queued |
| Prefilter.ResolvedSectionsSkip | tools/openapi_prefilter/main.go:168-185 | a reference visited before or not resolving creates no section |
| Prefilter.ResolvedSectionsAdd | tools/openapi_prefilter/main.go:187-193 | a resolving reference creates or extends exactly its own section |
| Prefilter.NeededGrows | tools/openapi_prefilter/main.go:149-153 | queuing something strictly grows the needed set within its bound, which is why the traversal ends |
| Prefilter.Visit | tools/openapi_prefilter/main.go:165-199 | one step of the breadth-first loop keeps the invariants, keeps the output's sections equal to those of the visited references that resolve, and decreases the termination measure |
| Prefilter.VisitResolved | tools/openapi_prefilter/main.go:176-198 | a popped reference that resolves is copied into its new or existing section and its references are queued, keeping the invariants |
| Prefilter.ResolveRefs | tools/openapi_prefilter/main.go:140-199 | the visited references are the least set holding the path references and closed under following resolved components; each is queued once; every resolvable one is copied from the input and nothing else is; the output has exactly the sections of the visited references that resolve |
| Prefilter.OperationSecurityCollected | tools/openapi_prefilter/main.go:248-290 | the schemes of the document-wide "security" and of every kept operation's "security" are collected |
| Prefilter.SchemeNamesSpec | tools/openapi_prefilter/main.go:250-265 | a scheme is named iff some map in the "security" list has it as a key |
| Prefilter.CopyNamed | tools/openapi_prefilter/main.go:208-212 | copies every needed scheme the input defines over the destination, and nothing else |
| Prefilter.CopiedOnlyFromInput | tools/openapi_prefilter/main.go:187-193 | what the traversal copied comes only from the input components |
| Prefilter.SchemesKeepCopied | tools/openapi_prefilter/main.go:201-214 | adding the schemes keeps every copied component |
| Prefilter.AddSchemes | tools/openapi_prefilter/main.go:201-214 | the needed schemes the input defines are added and the copied components are kept; everything in the output comes from the input; a `securitySchemes` section is added iff some scheme is needed and the input has a `securitySchemes` map, and no other section |
| Prefilter.BuildMinComponents | tools/openapi_prefilter/main.go:135-217 | empty components give an empty result; otherwise the result holds every component reachable from the kept paths (the least closed set) and the needed security schemes, each equal to its input entry, and nothing else; with input components, its sections are exactly those of the reached components plus `securitySchemes` iff some scheme is needed and the input has a `securitySchemes` map |
| Prefilter.NonEmptyStrings | tools/openapi_prefilter/main.go:425-431 | keeps no empty string and never adds entries |
| Prefilter.NonEmptyStringsAppend | tools/openapi_prefilter/main.go:425-431 | the filter keeps the order of the list |
| Prefilter.NonEmptyStringsSpec | tools/openapi_prefilter/main.go:425-431 | a string is kept iff it is a non-empty string entry of the list |
| Prefilter.EnumStrings | tools/openapi_prefilter/main.go:419-436 | the loop returns the non-empty string entries of "enum", in order, and nothing when "enum" is missing, not a list or empty |
| Prefilter.FindInline | tools/openapi_prefilter/main.go:361-397 | finds nothing iff the tree has no inline string enum on `properties.valueType`; otherwise one of them, the root's own first, for a list one under the first item that has any, and never an empty value |
| Prefilter.FindInlineFields | tools/openapi_prefilter/main.go:380-385 | walking a map's values finds nothing iff none of them holds an inline enum, and otherwise a non-empty enum found under one of them |
| Prefilter.FindInlineItems | tools/openapi_prefilter/main.go:386-392 | walking a list finds nothing iff no item holds an inline enum, and otherwise a non-empty enum found under the first item that holds one |
| Prefilter.RewriteValue | tools/openapi_prefilter/main.go:399-417 | rewrites a tree as the rewrite specification says |
| Prefilter.RewriteMap | tools/openapi_prefilter/main.go:401-411 | rewrites a map's entries as the rewrite specification says |
| Prefilter.RewriteKind | tools/openapi_prefilter/main.go:399-417 | the rewrite keeps scalars and keeps maps as maps and lists as lists |
| Prefilter.NonEmptyStringsSameStrings | tools/openapi_prefilter/main.go:425-431 | lists that agree on their strings have the same enum values |
| Prefilter.EnumValuesRewritten | tools/openapi_prefilter/main.go:404-410 | the rewrite does not change a schema's enum values |
| Prefilter.InlineEnumCleared | tools/openapi_prefilter/main.go:402-407 | after the rewrite, a map has no inline enum |
| Prefilter.RefNodeFixed | tools/openapi_prefilter/main.go:405 | the `$ref` node has no inline enum and the rewrite leaves it alone |
| Prefilter.RewriteClears | tools/openapi_prefilter/main.go:399-417 | no inline enum survives the rewrite anywhere in the tree |
| Prefilter.RewriteFieldsClears | tools/openapi_prefilter/main.go:401-411 | no inline enum survives the rewrite of a map |
| Prefilter.RewriteNoCandidates | tools/openapi_prefilter/main.go:399-417 | a tree without inline enums is left unchanged |
| Prefilter.RewriteFieldsNoCandidates | tools/openapi_prefilter/main.go:401-411 | a map without inline enums is left unchanged |
| Prefilter.RewriteIdempotent | tools/openapi_prefilter/main.go:399-417 | rewriting twice is rewriting once |
| Prefilter.RewriteReplacesInline | tools/openapi_prefilter/main.go:402-407 | an inline string enum on `properties.valueType` is replaced by `{"$ref": ref}`, keeping the other properties |
| Prefilter.RewriteFieldsKeys | tools/openapi_prefilter/main.go:401-411 | the rewrite keeps a map's keys |
| Prefilter.StrList | tools/openapi_prefilter/main.go:438-444 | one string node per value, in order |
| Prefilter.WithSchemas | tools/openapi_prefilter/main.go:323-327 | installing the schemas map keeps the document's keys |
| Prefilter.WithValueType | tools/openapi_prefilter/main.go:349-355 | `FeatureValueType` is added only when absent; existing schemas are never overwritten |
| Prefilter.PromoteValueTypeEnum | tools/openapi_prefilter/main.go:318-359 | nothing without components; the values are those of an existing `FeatureValueType` schema, else an inline enum found in the document; without values only the schemas map is installed; with values the named schema is added if absent and every inline enum is rewritten to a reference |
| Prefilter.SchemasAlreadyMap | tools/openapi_prefilter/main.go:323-327 | an existing schemas map is left as it is |
| Prefilter.EnumSchemaValues | tools/openapi_prefilter/main.go:350-354 | the named schema's enum lists exactly the promoted values, in order |
| Prefilter.EnumSchemaFixed | tools/openapi_prefilter/main.go:350-358 | the named schema holds no inline enum and survives the rewrite unchanged |
| Prefilter.RewriteFieldsAt | tools/openapi_prefilter/main.go:401-411 | outside `properties`, each entry of a map other than "properties" is rewritten on its own |
| Prefilter.PromotedSchemas | tools/openapi_prefilter/main.go:349-358 | after promotion, the schemas are the rewritten schemas with `FeatureValueType` |
| Prefilter.PromotedDoc | tools/openapi_prefilter/main.go:318-359 | after promotion, the document keeps its keys, `FeatureValueType` is defined (the existing one rewritten, or the new one listing the values), and no inline enum remains |
| Prefilter.PromoteKeepsKeys | tools/openapi_prefilter/main.go:318-359 | promotion keeps the document's keys |
| Prefilter.CopyKeyIfPresent | tools/openapi_prefilter/main.go:305-309 | the key is copied iff the source has it; no other entry changes |
| Prefilter.KeptTagsSpec | tools/openapi_prefilter/main.go:58-66 | a tag entry is kept iff it is a map whose "name" is the tag |
| Prefilter.FilterTags | tools/openapi_prefilter/main.go:59-66 | the loop keeps the tag objects named by the tag, in order |
| Prefilter.CopiesMakeHeader | tools/openapi_prefilter/main.go:50-54 | the four copies give exactly the document's "openapi", "info", "servers" and "security" entries |
| Prefilter.SkeletonKeysDistinct | tools/openapi_prefilter/main.go:50-75 | the added keys are distinct from the copied ones |
| Prefilter.Skeleton | tools/openapi_prefilter/main.go:50-70 | the skeleton holds the four header entries as they were, the filtered paths, and the kept tag objects iff there are any |
| Prefilter.Minimize | tools/openapi_prefilter/main.go:41-83 | fails with "openapi.paths missing or invalid" iff "paths" is missing or not a map; otherwise keeps "paths" and exactly the header keys the input has, and adds nothing beyond "tags" and "components" |

## Left out

- HTTP transport is not modelled. The API is a function from request to response, the `Client` value records the base URL and the `Authorization` header, and `context` cancellation is left out.
- `FetchAllFeatureMeta`: termination needs the precondition that the server eventually answers the offset chain with an error or a last page. The source has no stall detection and none is invented.
- `renderPreamble`, `formatGo` and the build version are fields of a `Toolchain` value, and their bodies are not modelled. The renderers' properties are about the lines written before formatting.
- The JSON, YAML and TOML encoders and decoders are fields of a `Library` value. `os.ReadFile` is a `read` parameter, and the environment is a map.
- The validator library is a function parameter of `Validate.Validate`. `asValidationErrors` is the `ValidationErrors?` test. The `strings.Contains(..., "ValidationErrors")` pre-check does not change the outcome and is folded away.
- Letters, digits, `ToUpper` and `ToLower` are ASCII only. `unicode.IsLetter`/`IsDigit` on other scripts are not modelled.
- The catalog sort is an insertion sort on an array. Like `sort.Slice`, it promises nothing about the order of equal ids.
- Go map iteration order is not modelled. Loops over maps pick keys in an arbitrary order, and every contract holds for any order. Two consequences:
  - when two keys of a path item lower-case to the same method, which operation is kept is not fixed;
  - when several values of one map hold an inline enum, which one `FindInline` returns is not fixed (lists are walked in order, and the first item holding one decides).
- The pre-filter mutates shared Go maps in place. The model works on tree values, so aliasing is not captured. A subtree shared in Go is rewritten once, while the model rewrites each copy; `Prefilter.RewriteIdempotent` shows that rewriting again changes nothing.
- The `isProps` flag of `Prefilter.RewriteFields` marks the "properties" map whose `valueType` the enclosing schema has just replaced. This is the order in which the Go code assigns the reference and then walks the map.
- `referencedSecuritySchemes` sorts its keys and then discards them, and calls `walkAny` with a no-op callback. Neither affects the result, so neither is modelled.
- The pre-filter's `main` is not modelled beyond `Prefilter.Minimize`: flags, the "-in and -out are required" check, `os.Exit`, and the YAML read and write.
- Text.IsPrint: Go's `strconv.IsPrint` is exact below U+0100. Above that, the model knows the space separators, the line and paragraph separators, the common format characters, the private-use areas and the noncharacters U+FFFE/U+FFFF. Unassigned code points and other characters that Go's Unicode tables mark as not printable are kept as they are by `Text.Quote` instead of being escaped.
- YAML scalars other than strings are opaque `Scalar` nodes.
- Prefilter.Minimize: the contract states the failure case and which top-level keys the output has. It does not restate the composed document; `Prefilter.Skeleton`, `Prefilter.BuildMinComponents` and `Prefilter.PromoteValueTypeEnum` state the parts.
- Generator.Generate: the fetched catalog and the request log are ghost outputs. The contract ties the result to them through `Meta.FetchOutcome`.
- `types/*.go` (the SDK wrappers), the CLI commands and the integration tests are not part of this model.
