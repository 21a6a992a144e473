# Agoda GraphQL generator: region splitting, rendering and emission

The generator runs `graphql-codegen` once over a GraphQL schema. The result is a single
`Classes.cs`, which the generator cuts into files along its `#region` markers:

- The first region called `input types` becomes the configured model file.
- Every other region becomes `<name>.generated.cs`, unless its name is reserved (`fragments`,
  `input types`, `Query`).
- Each file receives its region's non-blank lines with three textual fixes applied.

This project models that core in Dafny and proves what the code promises about it.

- `Text.dfy` (module `Text`): string operations on `seq<char>`. The core uses the whitespace test,
  `TrimStart`/`TrimEnd`/`Trim`, the one-argument `StartsWith` (which compares in the current
  culture; the model compares ordinally) and `string.Join`. `EndsWith`, `Contains` and
  `String.Split` with one separator character are not called by the core. They are there to state
  its properties: file names that end in `.generated.cs`, text the rewrite keeps or removes, and
  the rendering split back into its lines.
- `Replace.dfy` (module `Replace`): `String.Replace`, meaning ordinal, left-to-right replacement of
  every non-overlapping occurrence. It comes with a small theory of when a replacement removes,
  keeps or introduces a pattern. Two patterns are `Disjoint` when their occurrences can never
  overlap.
- `Region.dfy` (module `Regions`): the `Region(Name, Lines)` record and `GetSourceCode`, its
  rendering.
- `RegionParser.dfy` (module `RegionParser`): `Parse`, an imperative method with one loop over the
  lines. It keeps the C# locals `inRegion`, `currentRegion`, `currentLines`, `imports` and
  `regions`. It is proved equal to `ParseLines`, a fold of `Step` over a `State` record.
  `ParseLines` is in turn proved equal to `Reference`, which describes each region from the
  positions of the closing markers without simulating the loop.
- `CodeGenerator.dfy` (module `CodeGeneration`):
  - The file rewrite (`Rewrite`, `FileContent`).
  - The choice of files (`ModelWrites`, `RegionWrites`, `Plan`).
  - The output directory as a `map<string, string>` changed by an ordered list of writes
    (`ApplyWrites`).
  - The `graphql-codegen` argument string and the command trace.
  - The classes `FileStore` (the output directory) and `CommandLog` (the command executor, which
    records each call).
  - The class `CodeGenerator`, with `GenerateAsync`, `GenerateCode`, `ProcessRegions` and
    `GenerateFile` as methods over the two.
- `Wrappers.dfy`: `Option`.

Inputs that come from the environment are parameters:

- The lines of `Classes.cs` are `Option<seq<string>>`. `None` means the file does not exist.
  `Some(lines)` means it exists with those lines, as `File.ReadAllLines` returns them.
- `Environment.NewLine` is `'\n'`.
- `Path.Combine` follows the Unix rules.

The model follows these details of the code:

- A region's name is the left-trimmed line with every `#region` removed, then trimmed. It is not
  just the text after the leading marker.
- `currentLines` is reset only at a `#endregion` that closes a region, never at `#region`. So the
  lines of a region left open are carried into the next region that closes
  (`RegionParser.UnclosedBodyCarriesOver`).
- Lines outside regions keep accumulating into `imports` for the whole file. So a later region
  holds the preamble of every earlier one (`RegionParser.TwoRegions`).

## Model

| member | source | states |
|---|---|---|
| RegionParser.Parse | src/Agoda.GrapqhlGen/RegionParser.cs:7-77 | a missing file gives no regions; otherwise the loop over the lines yields exactly `ParseLines(lines)`, the fold of the per-line step (start marker, end marker inside or outside a region, line outside or inside a region) |
| RegionParser.MarkerTests | src/Agoda.GrapqhlGen/RegionParser.cs:33-41 | a line opens (closes) a region exactly when its left-trimmed text starts with `#region` (`#endregion`) |
| RegionParser.StartIsNotEnd | src/Agoda.GrapqhlGen/RegionParser.cs:33-41 | a `#region` line is never an `#endregion` line, so the start branch is the only one taken for it |
| RegionParser.ParseIsReference | src/Agoda.GrapqhlGen/RegionParser.cs:29-76 | the regions are, in order, one per `#endregion` met inside a region; each is named after the last `#region` before it and holds the lines outside regions before it followed by the body since the last emission |
| RegionParser.ReferenceSnoc | src/Agoda.GrapqhlGen/RegionParser.cs:41-49 | in the declarative reading, one more line adds one region (the one emitted at it) when it closes an open region, and leaves the earlier regions unchanged; otherwise it adds none |
| RegionParser.ClosingsAreClosingMarkers | src/Agoda.GrapqhlGen/RegionParser.cs:41-49 | a line closes a region if and only if it is an `#endregion` line and a region is open just before it |
| RegionParser.ClosingsBefore | src/Agoda.GrapqhlGen/RegionParser.cs:47 | the closings that precede the k-th closing are exactly the first k, so regions come out in the order of their closing markers |
| RegionParser.RegionIsImportsThenBody | src/Agoda.GrapqhlGen/RegionParser.cs:47-48 | each region's lines are the imports as they stood at its `#endregion`, followed by the body lines gathered since the previous emission |
| RegionParser.ImportsOnlyGrow | src/Agoda.GrapqhlGen/RegionParser.cs:47-57 | the import part of an earlier region is a prefix of that of every later region and of the final imports |
| RegionParser.StrayEndIgnored | src/Agoda.GrapqhlGen/RegionParser.cs:41-52 | an `#endregion` outside a region leaves the whole parser state unchanged |
| RegionParser.NoMarkerInRegions | src/Agoda.GrapqhlGen/RegionParser.cs:33-61 | every line of every region is a line of the file, and its left-trimmed text starts with neither `#region` nor `#endregion` |
| RegionParser.RegionCountBounded | src/Agoda.GrapqhlGen/RegionParser.cs:29-76 | there are no more regions than `#region` lines and no more than `#endregion` lines |
| RegionParser.ClosingsCounted | src/Agoda.GrapqhlGen/RegionParser.cs:33-49 | the closings plus a region still open at the end number at most the `#region` lines; the closings number at most the `#endregion` lines |
| RegionParser.UnclosedTailDropped | src/Agoda.GrapqhlGen/RegionParser.cs:29-76 | lines after the last `#endregion` (a region left open included) add no region |
| RegionParser.RegionNameFromOpeningLine | src/Agoda.GrapqhlGen/RegionParser.cs:36 | each region is named `RegionName` of a `#region` line before its closing line, with no marker line in between |
| RegionParser.LastNameIsOpeningName | src/Agoda.GrapqhlGen/RegionParser.cs:35-36 | while a region is open, the current name is the one derived from its opening line |
| RegionParser.TypicalRegionName | src/Agoda.GrapqhlGen/RegionParser.cs:36 | `indent + "#region " + name`, with `name` free of `#region`, opens a region named `Trim(name)` |
| RegionParser.LeadingMarker | src/Agoda.GrapqhlGen/RegionParser.cs:33-36 | after blank indentation, a line starting `#region` opens a region whose name is the trimmed rest with every `#region` removed |
| RegionParser.InnerMarkerRemoved | src/Agoda.GrapqhlGen/RegionParser.cs:36 | a second `#region` after a `#`-free stretch `u` is removed too, so the name is `Trim(u + rest with markers removed)` |
| RegionParser.InnerMarkerExample | src/Agoda.GrapqhlGen/RegionParser.cs:36 | the line `#region a#regionb` opens a region named `ab` |
| Replace.ReplaceAfterFree | src/Agoda.GrapqhlGen/RegionParser.cs:36 | when `u` lacks the pattern's first character, the first occurrence replaced in `u + p + v` is the one right after `u` |
| RegionParser.NamedStart | src/Agoda.GrapqhlGen/RegionParser.cs:36 | a name with no `#` and no outer whitespace comes out unchanged |
| RegionParser.UnclosedBodyCarriesOver | src/Agoda.GrapqhlGen/RegionParser.cs:35-48 | in `#region a`, `x`, `#region b`, `y`, `#endregion` the one region is named after `b` and holds `x` and `y` |
| RegionParser.PlainRun | src/Agoda.GrapqhlGen/RegionParser.cs:54-61 | ordinary lines are appended to the imports outside a region and to the body inside one, changing nothing else |
| RegionParser.ReadRegion | src/Agoda.GrapqhlGen/RegionParser.cs:33-61 | a whole region read outside any region emits one region, from the imports and the body; the body buffer is then empty |
| RegionParser.OneRegion | src/Agoda.GrapqhlGen/RegionParser.cs:29-62 | a file with one region gives that region, holding the lines before it followed by its body |
| RegionParser.TwoRegions | src/Agoda.GrapqhlGen/RegionParser.cs:47-57 | in a file with two regions the second region also holds the lines between the two |
| Regions.NonBlank | src/Agoda.GrapqhlGen/Region.cs:6 | the filter keeps only non-blank lines of the input and never more lines than it has |
| Regions.NonBlankSelectsInOrder | src/Agoda.GrapqhlGen/Region.cs:6 | the k-th kept line is, unaltered, the line at the k-th non-blank position; positions increase; a position is kept if and only if its line is not blank |
| Regions.EmptyRenderingIffAllBlank | src/Agoda.GrapqhlGen/Region.cs:5-6 | the rendering is empty if and only if every line is empty or whitespace |
| Regions.RenderedLinesAreKeptLines | src/Agoda.GrapqhlGen/Region.cs:5-6 | when no line holds the newline and some line is not blank, splitting the rendering at the newline gives back exactly the non-blank lines, in order |
| Regions.KeptLineRendered | src/Agoda.GrapqhlGen/Region.cs:5-6 | every non-blank line occurs in the rendering |
| Regions.NonBlankIdempotent | src/Agoda.GrapqhlGen/Region.cs:6 | filtering twice is filtering once |
| Regions.RenderingIgnoresBlankLines | src/Agoda.GrapqhlGen/Region.cs:5-6 | removing the blank lines beforehand leaves the rendering unchanged |
| Text.TrimSpec | src/Agoda.GrapqhlGen/RegionParser.cs:36 | `Trim` gives a slice of its input, framed by whitespace only, with no whitespace at either end |
| Text.TrimStartSpec | src/Agoda.GrapqhlGen/RegionParser.cs:33 | `TrimStart` removes a whitespace-only prefix and leaves text that starts with a non-whitespace character |
| Text.SplitJoin | src/Agoda.GrapqhlGen/Region.cs:6 | splitting the joined lines at a separator none of them holds gives the lines back |
| Text.JoinContains | src/Agoda.GrapqhlGen/CodeGenerator.cs:106 | every joined element occurs in the joined string |
| Replace.IndexOf | src/Agoda.GrapqhlGen/CodeGenerator.cs:158-161 | the ordinal search returns the first occurrence, or -1 exactly when there is none |
| Replace.ReplaceEliminates | src/Agoda.GrapqhlGen/CodeGenerator.cs:158-161 | replacing a pattern by text that cannot overlap it leaves no occurrence of the pattern |
| Replace.ReplaceKeepsAbsent | src/Agoda.GrapqhlGen/CodeGenerator.cs:158-161 | a replacement whose text cannot overlap `q` creates no `q` |
| Replace.ReplaceIntroduces | src/Agoda.GrapqhlGen/CodeGenerator.cs:158-161 | when the pattern occurs, the replacement text occurs in the result |
| Replace.ReplaceKeepsPresent | src/Agoda.GrapqhlGen/CodeGenerator.cs:158-161 | text that cannot overlap the pattern survives the replacement |
| CodeGeneration.RewriteRemovesStaleText | src/Agoda.GrapqhlGen/CodeGenerator.cs:158-161 | for every source and namespace, written content holds neither `</sumary>` nor `using Agoda.CodeGen.GraphQL` |
| CodeGeneration.RewriteKeepsCorrections | src/Agoda.GrapqhlGen/CodeGenerator.cs:158-161 | when the source holds `using Agoda.CodeGen.GraphQL` (`</sumary>`), the content holds `using Agoda.Graphql.Client` (`</summary>`) |
| CodeGeneration.RewriteRemovesGeneratedNamespace | src/Agoda.GrapqhlGen/CodeGenerator.cs:159 | `namespace Generated` is gone from the content when the new declaration cannot overlap it |
| CodeGeneration.RewriteDeclaresBaseNamespace | src/Agoda.GrapqhlGen/CodeGenerator.cs:159-161 | a source that contains `namespace Generated` yields content containing `namespace <base>`, which the two later fixes leave intact |
| CodeGeneration.RewriteWithTestNamespace | src/Agoda.GrapqhlGen.Tests/CodeGeneratorTests.cs:110-113 | with base `Test.Namespace` the content has no `namespace Generated`, and it has `namespace Test.Namespace` whenever the source had `namespace Generated` |
| CodeGeneration.FirstNamed | src/Agoda.GrapqhlGen/CodeGenerator.cs:132 | `None` exactly when no region has the name, otherwise the region at the first index with that name |
| CodeGeneration.ModelWriteIffInputTypes | src/Agoda.GrapqhlGen/CodeGenerator.cs:132-142 | there is no model write if and only if no region is called `input types` |
| CodeGeneration.ModelWriteRendersFirst | src/Agoda.GrapqhlGen/CodeGenerator.cs:132-142 | the model write is the single write of the first `input types` region, rewritten |
| CodeGeneration.ModelFileIffInputTypes | src/Agoda.GrapqhlGen/CodeGenerator.cs:131-150 | when the model path was absent and does not end in `.generated.cs` (so no region file can overwrite it), the model file is in the output if and only if some region is called `input types`, and it then holds the first one, rewritten |
| CodeGeneration.RegionWriteAt | src/Agoda.GrapqhlGen/CodeGenerator.cs:145-150 | every region with a name that is not reserved has one write, at its rank among those regions in parse order, to `<name>.generated.cs` |
| CodeGeneration.RegionWritesCounted | src/Agoda.GrapqhlGen/CodeGenerator.cs:145 | there are as many region writes as regions with a name that is not reserved |
| CodeGeneration.RegionWritesFromOthers | src/Agoda.GrapqhlGen/CodeGenerator.cs:145-149 | every region write comes from a region with a name that is not reserved |
| CodeGeneration.NoFileForReservedRegions | src/Agoda.GrapqhlGen/CodeGenerator.cs:145 | no region write targets `fragments.generated.cs`, `input types.generated.cs` or `Query.generated.cs` |
| CodeGeneration.RegionFileNameInjective | src/Agoda.GrapqhlGen/CodeGenerator.cs:147 | distinct region names give distinct file names |
| CodeGeneration.RegionPathsGenerated | src/Agoda.GrapqhlGen/CodeGenerator.cs:147-155 | every region file path ends with `.generated.cs` |
| CodeGeneration.CombineEndsWithName | src/Agoda.GrapqhlGen/CodeGenerator.cs:155 | a combined path ends with the file name |
| CodeGeneration.CombineInjective | src/Agoda.GrapqhlGen/CodeGenerator.cs:155 | in one directory, distinct relative names give distinct paths |
| CodeGeneration.LastWriteWins | src/Agoda.GrapqhlGen/CodeGenerator.cs:131-163 | a path holds the content of the last write to it |
| CodeGeneration.UnwrittenPathKept | src/Agoda.GrapqhlGen/CodeGenerator.cs:163 | a path no write targets keeps its content, or stays absent |
| CodeGeneration.ArgumentsLayout | src/Agoda.GrapqhlGen/CodeGenerator.cs:102-107 | the arguments start with `graphql-codegen --schema ` and end with a space and the `*.graphql` path of the output directory |
| CodeGeneration.HeaderFlagsPresent | src/Agoda.GrapqhlGen/CodeGenerator.cs:101-106 | every header pair appears as `--header "Key: Value"` in the arguments |
| CodeGeneration.NoHeaderWithoutHeaders | src/Agoda.GrapqhlGen/CodeGenerator.cs:101-107 | with no headers or an empty set, the arguments hold no `--header`, provided the schema URL, template and output path hold none |
| CodeGeneration.TraceWithoutHeaders | src/Agoda.GrapqhlGen.Tests/CodeGeneratorTests.cs:194-205 | without headers, pnpm is called exactly twice: once to install the code generator and once with `graphql-codegen` arguments that hold no `--header` |
| CodeGeneration.MissingClassesMessageNamesPath | src/Agoda.GrapqhlGen/CodeGenerator.cs:122-126 | the failure message contains `Generated Classes.cs file not found` and the path of `Classes.cs` |
| CodeGeneration.RegionsWithModels | src/Agoda.GrapqhlGen.Tests/CodeGeneratorTests.cs:57-67 | the tests' `Classes.cs` parses to an `input types` region and a `TestQuery` region; the second region also holds the blank line between the two |
| CodeGeneration.RegionsWithoutModels | src/Agoda.GrapqhlGen.Tests/CodeGeneratorTests.cs:128-134 | the `Classes.cs` with only `TestQuery` parses to that one region |
| CodeGeneration.ModelFileOfTestsNotGenerated | src/Agoda.GrapqhlGen.Tests/CodeGeneratorTests.cs:30 | `Models.cs` under any directory is not a `.generated.cs` path |
| CodeGeneration.TestQueryWrite | src/Agoda.GrapqhlGen/CodeGenerator.cs:145-149 | when only reserved regions come before a `TestQuery` region, as in the tests, `TestQuery.generated.cs` is the one region write |
| CodeGeneration.ModelsAndQueryWritten | src/Agoda.GrapqhlGen.Tests/CodeGeneratorTests.cs:93-97 | an `input types` region and a `TestQuery` region produce `Models.cs`, holding the first rewritten, and `TestQuery.generated.cs` |
| CodeGeneration.ModelsOfFixtureRewritten | src/Agoda.GrapqhlGen.Tests/CodeGeneratorTests.cs:111-113 | the tests' model region, rewritten for `Test.Namespace`, declares `namespace Test.Namespace` and no longer `namespace Generated` |
| CodeGeneration.GenerationWithModels | src/Agoda.GrapqhlGen.Tests/CodeGeneratorTests.cs:93-113 | with the first test file, `Models.cs` appears and declares `namespace Test.Namespace` instead of `namespace Generated`, and `TestQuery.generated.cs` appears |
| CodeGeneration.GenerationWithoutModels | src/Agoda.GrapqhlGen.Tests/CodeGeneratorTests.cs:143-144 | with the second test file no `Models.cs` appears, while `TestQuery.generated.cs` does |
| CodeGeneration.FileStore.WriteAllText | src/Agoda.GrapqhlGen/CodeGenerator.cs:163 | the file at the path is created or replaced with the content, and nothing else changes |
| CodeGeneration.CommandLog.ExecuteAsync | src/Agoda.GrapqhlGen/CodeGenerator.cs:94-110 | the call is appended to the trace |
| CodeGeneration.CodeGenerator.constructor | src/Agoda.GrapqhlGen/CodeGenerator.cs:18-39 | every configuration field holds its argument |
| CodeGeneration.CodeGenerator.GenerateAsync | src/Agoda.GrapqhlGen/CodeGenerator.cs:41-53 | the three commands run first, in order; then the run fails, writing nothing, if there is no `Classes.cs`, or the output directory receives the writes of `Plan` in order |
| CodeGeneration.CodeGenerator.GenerateCode | src/Agoda.GrapqhlGen/CodeGenerator.cs:88-115 | the trace grows by `npm install -g pnpm`, the pnpm install of the code generator, and pnpm with the generated arguments, in that order |
| CodeGeneration.CodeGenerator.ProcessRegions | src/Agoda.GrapqhlGen/CodeGenerator.cs:117-151 | a missing `Classes.cs` fails with the message and no write; otherwise the output is the old directory with the model write (first `input types` region), then one write per region with a name that is not reserved, applied in order |
| CodeGeneration.CodeGenerator.GenerateFile | src/Agoda.GrapqhlGen/CodeGenerator.cs:153-165 | the path of the file name under the output directory now holds the region's rendering with the three fixes applied; nothing else changes |

## Left out

- `EnsureDirectoriesExist`, `CleanWorkingDirectory` and `CopyGraphQLFiles`
  (src/Agoda.GrapqhlGen/CodeGenerator.cs:55-86), and the final clean at line 50. These create
  directories and glob, copy and delete files on the real filesystem. The output map starts from
  whatever the directory holds. The deletion of `*.graphql` files and the old `Classes.cs` is not
  modelled.
- `File.Exists` and `File.ReadAllLines` of `Classes.cs`: the file's presence and lines are the
  `Option<seq<string>>` argument of `GenerateAsync` and `ProcessRegions`. How the external code
  generator produces that file is not modelled. It is also not modelled that
  `CleanWorkingDirectory` removes a stale `Classes.cs`, which is what makes the file's presence
  depend on the generator.
- `CommandExecutor.cs`: process launch, output streams and exit codes. `CommandLog` only records
  calls, and every command succeeds. The default executor created when none is passed
  (`CodeGenerator.cs:36`) is not modelled. The caller always supplies one.
- `Program.cs`, command-line parsing and the header string split. Headers arrive already as an
  ordered list of pairs. `Dictionary` enumeration order is taken to be that list's order.
- Logging, `async`/`Task` plumbing and `Encoding.UTF8`: they have no effect on the modelled
  outputs.
- `inputPath` is stored but unused, since it only feeds `CopyGraphQLFiles`.
- CodeGeneration.FileStore.WriteAllText, CodeGeneration.CodeGenerator.ProcessRegions and
  CodeGeneration.CodeGenerator.GenerateAsync: every write succeeds, and a path string stands for
  one file. `File.WriteAllText` (src/Agoda.GrapqhlGen/CodeGenerator.cs:163) throws on a missing
  directory (a region named `a/b`), a NUL character, an over-long name or a permission failure.
  Then `ProcessRegions` stops partway: earlier files stay written, later regions get no file, and
  `GenerateAsync` neither completes nor runs its final clean. The model instead always returns
  `Completed` with every write of the plan applied. Two path strings that name the same file on
  disk (`a` and `./a`) are two keys of the map, so `LastWriteWins` describes the map, not the
  disk, for them.
- The exception raised for a missing `Classes.cs` is modelled as the `Failed(message)` outcome.
  The commands already in the trace stay there.
- Whitespace is the ASCII whitespace set, not the full Unicode set of `char.IsWhiteSpace`.
  `Environment.NewLine` is `'\n'`. `Replace` is ordinal, as in the code. `Path.Combine` uses the
  Unix rules, with `/` as the only separator and a rooted second part replacing the first.
- RegionParser.Parse, RegionParser.MarkerTests: the marker tests at
  src/Agoda.GrapqhlGen/RegionParser.cs:33 and src/Agoda.GrapqhlGen/RegionParser.cs:41 call the
  one-argument `String.StartsWith(string)`, which compares in the current culture; the model
  compares ordinally. A line holding a character the culture comparison ignores, such as
  `#re\u00ADgion X` with a soft hyphen, opens a region in the program but is an ordinary import
  or body line in the model. The same holds for `#endregion`.
- CodeGeneration.RewriteRemovesGeneratedNamespace: stated only for base namespaces whose
  declaration cannot overlap `namespace Generated`. Without that premise, `"\nnamespace " + base`
  can itself contain `namespace Generated`, for example when the base is `Generated`.
- CodeGeneration.RewriteDeclaresBaseNamespace: stated for base namespaces where `namespace <base>` cannot
  overlap `using Agoda.CodeGen.GraphQL` or `</sumary>`. Otherwise the later fixes can rewrite
  part of the declaration.
- CodeGeneration.NoHeaderWithoutHeaders: holds only when the schema URL, template and output path
  do not themselves contain `--header`. Otherwise the argument string contains it whatever the
  headers are.
- CodeGeneration.RegionsWithModels: the indentation of the region lines is a parameter, any
  whitespace-only string. The tests indent by four spaces. The test files' line breaks are taken
  to be single `'\n'`, with the leading line break of the verbatim string giving an empty first
  line.
