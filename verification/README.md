# A verified model of the gateway and the host bootstrap

The repository is a tool gateway (TypeScript) with a host bootstrap (Rust). This project models the parts of it that
are algorithms or protocols in their own right, in Dafny, and proves what their documentation and tests promise.
Verify everything with `dafny verify dfyconfig.toml`.

Text is a sequence of Unicode scalar values; `Utf8` and `Utf16` give its bytes and its code units (RFC 3629 section 3).

| Modules | What they model |
|---|---|
| `Utf8`, `Utf16`, `Lines`, `Sequences`, `Wrappers` | encodings, the order of strings by code units, splitting at a separator, slices |
| `TextCutters` | the byte-limited text cutters and the rolling standard-error tail |
| `FatImage`, `FatReader`, `FatLabels`, `BootstrapDisk` | the FAT16 image writer over one byte array, an independent reader of the file, one of the labels and of everything a mount looks at, the key check and the decisions about the managed disk |
| `Json`, `JsonParser`, `CanonicalJson` | JSON values, a parser for sections 2 to 7 of RFC 8259, the canonical printer |
| `SchemaModel`, `SchemaDivision`, `SchemaTrace`, `SchemaSemantics`, `SchemaSoundness`, `SchemaExactness`, `SchemaInspection`, `SchemaGuards`, `SchemaUnguarded`, `SchemaFaults`, `IssueCollection`, `SchemaValidator`, `ToolValidation` | argument validation: the uncapped traversal, what a schema means, their agreement, the traversal without its dead branches, the fault behind every finding, and the capped, counting validator proved against the traversal |
| `DirectoryOrder`, `DirectoryHeap`, `DirectoryListing`, `DirectoryPaths` | the bounded max-heap, the depth-first listing under two budgets, and the paths it lists |
| `RgSearch` | grouping the events of a search by file and cutting the result |
| `ArtifactFit`, `ArtifactMeaning`, `ArtifactStore`, `ArtifactReads` | fitting one artifact into a byte limit, and what gives way in terms of serialized sizes; the bounded, expiring LRU store, and what its readers get |
| `UpstreamRegistry`, `UpstreamHistory`, `Deadline` | connections to upstreams under every interleaving, and what the state says about the events before; an operation raced against a timer |
| `ChildOutput`, `ChildProcess`, `ChildFiles`, `ChildSignals`, `ChildRunner` | one child process under every order of events: the capture of its output, the machine with its timers and its two file writers (each with one chunk on its way and others waiting), runs with output to files, the signals and the result of a run in terms of its events, and the object whose handlers are that machine's steps |
| `AtomicReplace` | atomic file replacement under every fault and crash |
| `Appliance` | appliance materialization over histories of runs |
| `InitArguments`, `InitMeaning` | the option grammar of `init`, and the record field by field |

Some modules keep a specification apart from the code that runs: `SchemaTrace` is the traversal with no cap and no
shared state, `SchemaSemantics` says what a schema means without traversing, `FatReader` and `JsonParser` read formats
without the writers' functions (the reader's checksum is its own), and the `Step` functions of the protocol modules are
the segments their classes execute. `SchemaFaults`, `FatLabels`, `ArtifactMeaning`, `ArtifactReads`, `DirectoryPaths`,
`UpstreamHistory`, `ChildSignals`, `InitMeaning` and the evidence in `Appliance` state results once more in plain
constants, sizes, paths and events, rather than through the functions the programs are proved against.

Results that differ from what the code's comments or a quick reading suggest:

- With output written to files, `outputLimit` of a child's result can be false although output was cut. The result
  reports the limit exactly when the chunks the writers had begun by the end exceed it: of each stream the first one, and
  one more for every chunk its file had taken (`ChildFiles.FilesReportTheLimitIff`). So a cut goes unreported for every
  limit above 0 and any two chunks that cross it only together, when the child ends while the first is on its way
  (`ChildFiles.CutWithoutReport`), and never at limit 0 or with one chunk per stream (`ChildFiles.NothingUnreported`).
- A context line of a search is attached within its window, and none is lost, exactly when each lies within the window
  of some match of its file (`RgSearch.ContextAttachedIff`). Any other line goes to the next match however far that is
  (`RgSearch.FarContextAttached`), or is dropped when none follows (`RgSearch.LateContextLost`).
- Two values compare equal exactly when they are equal and nest at most 32 levels (`SchemaModel.JsonEqualIff`), so a
  deeper value is refused even by a schema whose constant it is (`SchemaExactness.DeepConstantRefused`).
- A number outside the safe range is refused by its type exactly when the types name integers and not numbers
  (`SchemaExactness.UnsafeIntegerRefused`).
- Divisibility is tested on a rounded quotient, so a number outside the safe range can pass for a multiple it is not:
  exactly where `SchemaDivision.DivisionExact` fails (`ToolValidation.NonMultipleAccepted`), for one 2 to the 60 and 3
  (`ToolValidation.PowerOfTwoAccepted`). A multiple is never refused, and in the safe range the test is exact
  (`SchemaDivision.SafeDivisionExact`).
- These three, depth, type and division, are the only ways in which the checks of a value itself differ from what the
  schema says (`SchemaExactness.ScalarsAgree`).

## Model

| member | source | states |
|---|---|---|
| TextCutters.FitTextToByteLimit | src/local-tools.ts:2025-2040 | for any units, the longest front within the byte limit, less a high surrogate at the cut |
| TextCutters.FrontIsLongestPrefix | src/local-tools.ts:2025-2040 | on well-formed text that is the longest whole-character prefix |
| TextCutters.TruncateUtf8 | src/logging.ts:79-92 | the character loop returns the longest whole-character prefix within the limit |
| TextCutters.Utf8Prefix | src/retrieve.ts:115-127 | stepping back from a byte cut until it decodes returns that same prefix |
| TextCutters.TrimIncompleteUtf8 | src/local-tools.ts:2045-2059 | for any bytes, drops exactly an incomplete last sequence |
| TextCutters.TrimmedIsLongestPrefix | src/local-tools.ts:2045-2059 | a cut of encoded text is trimmed to the encoding of the longest whole-character prefix |
| TextCutters.LongestPrefixIsLongest | src/retrieve.ts:115-127 | the prefix the cutters share fits, and no longer one does |
| TextCutters.BoundedText | src/upstream.ts:181-194 | the longest whole-character suffix within the limit |
| TextCutters.StderrTail.AppendTail | src/upstream.ts:196-200 | one append leaves the longest suffix of the old tail and the new text |
| TextCutters.RollingTailIsLongestSuffix | src/upstream.ts:196-200 | after any run of appends the tail is the longest such suffix of everything appended |
| Utf8.EncodeOfDecode | src/retrieve.ts:118-125 | whatever the strict decoder accepts is the encoding of its result |
| Utf8.EncodedCharTable | src/retrieve.ts:115-127 | bytes per character, lead ranges and payload bits are those of RFC 3629 |
| Utf16.UnitsBeforeMeans | src/local-tools.ts:1740-1742 | a text is before another exactly when its unit is the smaller at the first difference, or it is a proper front |
| Utf16.CharUnitsMean | src/local-tools.ts:1740-1742 | a character is one unit, or a high and a low surrogate of ten bits each |
| FatImage.BuildFat16Image | host-bootstrap/src/bootstrap_disk.rs:369-453 | writes in bounds exactly the image of the content; refuses exactly contents above the capacity |
| FatImage.WriteLongNameEntry | host-bootstrap/src/bootstrap_disk.rs:455-476 | one long-name entry: its 32 bytes, and nothing else touched |
| FatImage.WriteFat | host-bootstrap/src/bootstrap_disk.rs:404-419 | one table: its chain and end mark, the rest free, nothing else touched |
| FatReader.FindsFile | host-bootstrap/src/bootstrap_disk.rs:455-482 | the directory scan, which accepts long-name entries only last chunk first and with the checksum of the short entry, finds the file under its name |
| FatReader.ChecksumsAgree | host-bootstrap/src/bootstrap_disk.rs:478-482 | the writer's fold over the short name is the checksum the reader computes with bit rotations |
| FatReader.ImageMounts | host-bootstrap/src/bootstrap_disk.rs:369-453 | mounting the image from its boot sector alone gives the geometry the regions were written at |
| FatReader.WriteThenRead | host-bootstrap/src/bootstrap_disk.rs:369-500 | a FAT16 reader that finds the file by its long name and follows the chain returns exactly the content |
| FatReader.ImageInjective | host-bootstrap/src/bootstrap_disk.rs:369-453 | distinct contents give distinct images |
| FatLabels.VolumeIsLabelled | host-bootstrap/src/bootstrap_disk.rs:369-453 | the label of the boot sector and the label entry of the root directory both read MTNAI_BOOT |
| FatLabels.ImageIsFat16 | host-bootstrap/src/bootstrap_disk.rs:369-402 | every boot field has the value a FAT16 volume of this geometry has, among them type text, extended and end signature |
| FatLabels.TablesAreInOrder | host-bootstrap/src/bootstrap_disk.rs:404-419 | both tables begin with the media byte of the boot sector and a clean end mark, the cluster count is one of FAT16, and slots behind the chain are free |
| FatLabels.FoundByShortName | host-bootstrap/src/bootstrap_disk.rs:421-440 | the file is found by its 8.3 name too, with first cluster and size, and nothing follows its entry |
| FatLabels.NothingBehindContent | host-bootstrap/src/bootstrap_disk.rs:441-453 | the data region is the content and zeros |
| BootstrapDisk.LineGrammar | host-bootstrap/src/bootstrap_disk.rs:174-194 | the field-by-field check of a line accepts exactly algorithm, blob and optional comment |
| BootstrapDisk.ValidatePublicKeyText | host-bootstrap/src/bootstrap_disk.rs:164-205 | accepts exactly texts of 1 to 16 such lines within the bound, and returns them normalized |
| BootstrapDisk.KeyGrammar | host-bootstrap/src/bootstrap_disk.rs:164-205 | a text is accepted exactly when it is 1 to 16 lines of a listed algorithm, blob and optional comment, with or without a last line break, in 8192 bytes; and those lines with a break after each are what is kept |
| BootstrapDisk.NormalizedText | host-bootstrap/src/bootstrap_disk.rs:169-200 | normalizing only adds a missing final line break |
| BootstrapDisk.NormalizationIdempotent | host-bootstrap/src/bootstrap_disk.rs:164-205 | a normalized key is a fixed point of validation |
| BootstrapDisk.ManagedDisk.EnsureBootstrapDisk | host-bootstrap/src/bootstrap_disk.rs:76-129 | afterwards the disk is the image of the key, and it is written only when it was not |
| BootstrapDisk.ManagedDisk.VerifyBootstrapDisk | host-bootstrap/src/bootstrap_disk.rs:133-162 | accepts exactly the untouched image of the key |
| BootstrapDisk.DiskCarriesOneKey | host-bootstrap/src/bootstrap_disk.rs:133-162 | a disk verifies for at most one normalized key |
| BootstrapDisk.GuestReadsKey | host-bootstrap/src/bootstrap_disk.rs:76-129 | reading the established disk under the name authorized_keys gives the normalized key, from either table |
| CanonicalJson.ParseOfStringify | src/gh-makami.ts:790-814 | parsing the printed text gives the value in canonical form |
| CanonicalJson.ParsedIsEquivalent | src/gh-makami.ts:790-814 | the value parsed back is well formed and equal to the printed one up to member order |
| CanonicalJson.SameTextIffEquivalent | src/gh-makami.ts:790-814 | two values print to the same text exactly when they are equal up to member order |
| CanonicalJson.PrintsIffSerializable | src/gh-makami.ts:791-801 | printing fails exactly for values holding something that is not JSON or a number that is not finite |
| CanonicalJson.InputIgnoresMemberOrder | src/gh-makami.ts:541-557 | the bounded input text does not depend on member order |
| CanonicalJson.InputMeans | src/gh-makami.ts:541-557 | nothing for no value; refused as invalid exactly when some part does not print, as too long exactly when the text has more bytes than the limit; else the text within the limit, which reads back as the value |
| CanonicalJson.EscapeMeans | src/gh-makami.ts:792 | a character is escaped only where JSON asks for it, and in its short form where there is one |
| SchemaModel.JsonEqualIff | src/mcp-tool-validation.ts:366-381 | two values compare equal exactly when they are equal up to member order and no deeper than the limit |
| SchemaModel.DeepEqualRefused | src/mcp-tool-validation.ts:366-381 | an equal pair one level deeper than the limit compares unequal |
| SchemaSemantics.TypeFitsIff | src/mcp-tool-validation.ts:315-342 | the type check passes exactly for values of a listed type, except unsafe integers that no listed number type covers |
| SchemaExactness.ScalarsAgree | src/mcp-tool-validation.ts:390-440 | the checks of the value itself pass whenever it conforms and they can see it; when they pass, they could see it, and it conforms exactly where the division is exact |
| SchemaDivision.DivisionExactIff | src/mcp-tool-validation.ts:435-438 | whether the rounded quotient is an integer agrees with divisibility exactly under a condition on remainder and size; a multiple always passes |
| SchemaDivision.SafeDivisionExact | src/mcp-tool-validation.ts:435-438 | for safe integers the test is exact |
| SchemaDivision.HugeQuotientPasses | src/mcp-tool-validation.ts:435-438 | every quotient of at least 2 to the 52 passes |
| SchemaSoundness.CleanImpliesSatisfies | src/mcp-tool-validation.ts:442-598 | without oneOf and not, and where divisions are exact, finding nothing means conforming, whatever guards fire |
| SchemaSoundness.SafeNumbersReach | src/mcp-tool-validation.ts:435-438 | divisions are exact, whatever the schema, when all numbers of the value are safe integers |
| SchemaExactness.CleanIffSatisfies | src/mcp-tool-validation.ts:442-598 | when no size guard fires and every value visited can be seen, finding nothing is conforming, for every schema; and the counter counts the visits |
| SchemaExactness.UnsafeIntegerRefused | src/mcp-tool-validation.ts:335-336 | a number outside the safe range is refused for its type although it conforms exactly when the types name integers and not numbers |
| SchemaExactness.DeepConstantRefused | src/mcp-tool-validation.ts:394-396 | a value equal to the constant is refused exactly when it nests deeper than the limit |
| SchemaInspection.CleanIffUsable | src/mcp-tool-validation.ts:193-313 | inspection is clean exactly for well-formed schemas, with compiling patterns, within the nesting and node limits |
| SchemaGuards.DeadBranches | src/mcp-tool-validation.ts:583-586 | after a clean inspection no reported finding is the nesting guard or a pattern that does not compile |
| SchemaUnguarded.GuardsAreDead | src/mcp-tool-validation.ts:571-598 | after a clean inspection the traversal is, at every node and inside every private branch, the one without the nesting guard and the pattern checks |
| SchemaFaults.FindingsAreFaults | src/mcp-tool-validation.ts:571-598 | every finding outside the guards names a place below the value and a subschema asked of that place which it fails in the way the finding says |
| SchemaFaults.KeywordFindingsAreFaults | src/mcp-tool-validation.ts:218-279 | every finding about the keywords of a schema node is a fault of that node |
| IssueCollection.IssueCollector.Add | src/mcp-tool-validation.ts:81-96 | keeps the first eight issues and says when it drops one |
| SchemaValidator.AddTypeIssue | src/mcp-tool-validation.ts:383-388 | records a type mismatch exactly when no listed type fits |
| SchemaValidator.AddScalarConstraints | src/mcp-tool-validation.ts:390-440 | records exactly the scalar findings of the uncapped traversal |
| SchemaValidator.ValidateObject | src/mcp-tool-validation.ts:442-494 | records exactly the findings for an object and leaves the exact node counter unless it was cut |
| SchemaValidator.ValidateArray | src/mcp-tool-validation.ts:496-536 | the same for an array |
| SchemaValidator.BranchIsClean | src/mcp-tool-validation.ts:542-546 | a branch on a collector of its own is clean exactly when the uncapped traversal finds nothing |
| SchemaValidator.ValidateCombinators | src/mcp-tool-validation.ts:548-569 | records exactly the findings of the combinators |
| SchemaValidator.ValidateNode | src/mcp-tool-validation.ts:571-598 | records exactly the findings for a node |
| ToolValidation.InspectSchemaMap | src/mcp-tool-validation.ts:159-174 | records exactly the findings for a map of schemas |
| ToolValidation.InspectSchemaList | src/mcp-tool-validation.ts:176-191 | records exactly the findings for a list of schemas |
| ToolValidation.InspectKeywords | src/mcp-tool-validation.ts:218-279 | records exactly the findings for the keywords of one node |
| ToolValidation.InspectSchemaNode | src/mcp-tool-validation.ts:193-308 | records exactly the findings for a schema node |
| ToolValidation.ValidateToolArguments | src/mcp-tool-validation.ts:601-624 | reports the first eight findings of the uncapped run, all of them unless it says it was cut, and accepts exactly when there are none |
| ToolValidation.AcceptedConforms | src/mcp-tool-validation.ts:601-624 | arguments that are accepted conform, themselves, to a schema without oneOf and not, where divisions are exact |
| ToolValidation.AcceptedIffConforms | src/mcp-tool-validation.ts:601-624 | when no size guard fires and every value visited can be seen, arguments are accepted exactly when the schema is usable and they conform |
| ToolValidation.AcceptedWithoutArguments | src/mcp-tool-validation.ts:616 | an accepted call without arguments: the empty object conforms if the types list object, else the absence of a value does |
| ToolValidation.EmptyCallIffConforms | src/mcp-tool-validation.ts:616 | a call without arguments to a tool that takes an object is accepted exactly when the empty object conforms |
| ToolValidation.AbsentCallIffConforms | src/mcp-tool-validation.ts:616 | to any other tool, exactly when the absence of a value conforms |
| ToolValidation.ReportedAreFaults | src/mcp-tool-validation.ts:601-624 | whatever is reported about arguments, but for the node guard, is a fault at the place named |
| ToolValidation.NonMultipleAccepted | src/mcp-tool-validation.ts:435-438 | a schema that asks for multiples accepts a number that is none exactly where the division is not exact |
| ToolValidation.PowerOfTwoAccepted | src/mcp-tool-validation.ts:435-438 | 2 to the 60 is accepted as a multiple of 3 |
| ToolValidation.InspectedIsSafe | src/mcp-tool-validation.ts:310-313 | a call to a tool with an inspected schema finds what the traversal without those guards finds in the arguments, or in the empty object that stands for missing ones, and never a dead guard |
| DirectoryHeap.SiftUpMaxHeap | src/local-tools.ts:1744-1751 | restores heap order and keeps the entries |
| DirectoryHeap.SiftDownMaxHeap | src/local-tools.ts:1753-1764 | restores heap order and keeps the entries |
| DirectoryHeap.KeptIsFront | src/local-tools.ts:1714-1738 | what a bounded heap keeps, sorted, is the front of everything visible, sorted |
| DirectoryHeap.ReadSortedDirectory | src/local-tools.ts:1714-1738 | the sorted `limit` smallest entries that are not omitted, and whether there were more |
| DirectoryOrder.OrderedUnique | src/local-tools.ts:1740-1742 | order and contents determine the sorted sequence |
| DirectoryListing.ListTraversalState.List | src/local-tools.ts:1697-1705 | one entry is listed when both budgets allow; otherwise the listing stops and names the budget |
| DirectoryListing.Walk | src/local-tools.ts:1688-1712 | lists the longest front of what is below a directory that the budgets allow |
| DirectoryListing.ListDirectory | src/local-tools.ts:1294-1303 | exactly the longest front of the full sorted listing within both budgets; complete, entry limit or byte limit as promised |
| DirectoryListing.StopsIsLongest | src/local-tools.ts:1697-1705 | stopping at the first entry that does not fit gives the longest front that fits |
| DirectoryListing.DeliveryOrderIsIrrelevant | src/local-tools.ts:1714-1738 | the full listing does not depend on the order in which directories are delivered |
| DirectoryPaths.ListingIsEveryTrail | src/local-tools.ts:1688-1742 | the full listing is the names along each path of visible entries down to the depth, joined by slashes, with a slash behind a directory; each path once, siblings by name, a directory directly before what is below it |
| DirectoryPaths.BytesOfLines | src/local-tools.ts:1697-1705 | the byte budget counts the entries joined by line breaks |
| RgSearch.ParseRgJson | src/local-tools.ts:1805-1873 | one group per file in order of appearance, each determined by the events of that file alone; malformed lines counted |
| RgSearch.MatchesKept | src/local-tools.ts:1843-1850 | every match is kept, in order |
| RgSearch.ContextConserved | src/local-tools.ts:1853-1859 | no context line is lost, repeated or reordered before the end of the file's events |
| RgSearch.GroupsHoldTheStream | src/local-tools.ts:1805-1873 | a group holds the match lines of its file in order, and, lines increasing, a front of its context lines in order |
| RgSearch.BoundedLineMeans | src/local-tools.ts:1805-1873 | a malformed line is quoted up to 200 units, with an ellipsis behind a longer one |
| RgSearch.ContextAttachedIff | src/local-tools.ts:1853-1859 | all context ends up within the window of its match, none left over, exactly when each lies near some match |
| RgSearch.FarContextAttached | src/local-tools.ts:1843-1859 | a line out of every window goes to the next match however far that is |
| RgSearch.LateContextLost | src/local-tools.ts:1853-1859 | such a line with no match to come is in no match |
| RgSearch.TruncateGroups | src/local-tools.ts:1268-1291 | the first maxResults matches over all groups: exactly the groups reached before that many, the last with a front of its matches, the others whole; kept and omitted add up |
| RgSearch.CappedSearchIsExact | src/local-tools.ts:1152-1154 | for every stream that agrees with the whole one in each file up to one match more than wanted: the first matches come out with the same context, and whether there are more is known |
| ArtifactFit.PayloadSize | src/retrieve.ts:129-138 | the serialized size is the sum over the fields |
| ArtifactFit.StreamFormula | src/retrieve.ts:161-173 | the additive size formula for a stream equals full serialization |
| ArtifactFit.MetadataFormula | src/retrieve.ts:177-198 | the same for a metadata string |
| ArtifactFit.TextFormula | src/retrieve.ts:229-242 | the same for the text |
| ArtifactFit.SmallestPayload | src/retrieve.ts:133-134 | the smallest payload has 11 bytes |
| ArtifactFit.FitUtf8Prefix | src/retrieve.ts:140-159 | the binary search returns the longest whole-character prefix that fits |
| ArtifactFit.FitStringField | src/retrieve.ts:161-173 | the longest prefix of a stream that fits beside the rest |
| ArtifactFit.FitMetadataString | src/retrieve.ts:177-198 | the longest prefix of a metadata string that fits beside the rest |
| ArtifactFit.BoundMetadata | src/retrieve.ts:200-223 | the longest operation that fits alone, then each string whole if it fits and else its longest fitting prefix, diagnostics and then identity whole exactly when they fit |
| ArtifactFit.FitText | src/retrieve.ts:229-250 | the longest prefix that fits with the footer, else the longest without |
| ArtifactFit.BoundArtifact | src/retrieve.ts:252-301 | fits any limit of at least 11 bytes; untouched exactly when it fits; else longest fitting streams and metadata, fields dropped in order, and the text verbatim exactly when it fits alone |
| ArtifactMeaning.SerializedParses | src/retrieve.ts:129-131 | the serialized payload reads back as an object of exactly the fields there are, under their names |
| ArtifactMeaning.MetadataFields | src/retrieve.ts:129-131 | the same for the metadata in it |
| ArtifactMeaning.StreamsMean | src/retrieve.ts:161-173 | in serialized sizes alone: standard output the longest prefix beside everything else, standard error beside what is left of it |
| ArtifactMeaning.MetadataMeans | src/retrieve.ts:200-223 | in serialized sizes alone: each string cut beside those before it; diagnostics kept exactly when the payload with the strings and them fits, identity exactly when it fits beside what was kept |
| ArtifactMeaning.BoundArtifactMeans | src/retrieve.ts:252-301 | in serialized sizes alone: streams and metadata reduced as above, fields dropped only while the payload is over the limit, the text cut only then, and the operation kept alive exactly when it fits |
| ArtifactMeaning.DecimalMeans | src/retrieve.ts:225-227 | the numbers of the footer are decimal numerals |
| ArtifactStore.EvictionIsShortest | src/retrieve.ts:374-397 | eviction drops the fewest oldest entries, never the incoming one, that restore both bounds |
| ArtifactStore.NewestSurvive | src/retrieve.ts:369-397 | what survives is the newest entries, and the incoming one even when it is older |
| ArtifactStore.InMemoryArtifactStore.Create | src/retrieve.ts:315-341 | refuses exactly the options out of range |
| ArtifactStore.InMemoryArtifactStore.PutArtifact | src/retrieve.ts:347-408 | errors only by storage faults, which change nothing, and never by the checks on the way; otherwise expired out, the bounded form of the artifact in, fewest oldest evicted, bytes accounted |
| ArtifactStore.InMemoryArtifactStore.GetStoredArtifactBytes | src/retrieve.ts:414-422 | the serialized size of a live entry, without counting as use |
| ArtifactStore.InMemoryArtifactStore.Retrieve | src/retrieve.ts:424-459 | a live entry becomes the newest and shows the window asked for, with the line of the match |
| ArtifactStore.WindowStart | src/retrieve.ts:437-443 | a window around a match begins at most the asked context before it and early enough to hold it |
| ArtifactStore.WindowOf | src/retrieve.ts:434-456 | the range reported is exactly the lines shown, and a match is among them |
| ArtifactReads.SourceMeans | src/retrieve.ts:433-434 | the stream asked for is the one shown; one that is not there is empty |
| ArtifactReads.LimitsMean | src/retrieve.ts:437-438 | at most 80 lines and 20 lines of context, whatever is asked |
| ArtifactReads.MatchMeans | src/retrieve.ts:436 | the match is the first line that holds the text asked for |
| ArtifactReads.StartMeans | src/retrieve.ts:439-442 | the window begins where asked, or as far before the match as asked and as fits |
| ArtifactStore.InMemoryArtifactStore.Search | src/retrieve.ts:461-490 | the newest live matches up to the limit; what expired is removed |
| ArtifactReads.SearchMeans | src/retrieve.ts:461-484 | matching entries only, newest first, up to the limit between 1 and 100; one is missing only when that many newer ones match |
| ArtifactReads.LiveMeans | src/retrieve.ts:486-492 | what is left after expiry is, in order, every entry whose time has not come |
| ArtifactReads.UpsertMeans | src/retrieve.ts:369-372 | a replacement takes the place of the entry with its id, a new entry comes last |
| UpstreamRegistry.UpstreamRegistry.Start | src/upstream.ts:264-300 | at most one new connector call, and only for an enabled, unconnected, idle record before shutdown |
| UpstreamRegistry.UpstreamRegistry.OnConnected | src/upstream.ts:273-285 | a delivered handle is stored, or closed at once after shutdown |
| UpstreamRegistry.UpstreamRegistry.Invalidate | src/upstream.ts:303-320 | the stored handle, if any, is given up and closed once |
| UpstreamRegistry.UpstreamRegistry.Close | src/upstream.ts:327-347 | every stored handle is given up and closed once; a second call changes nothing |
| UpstreamRegistry.EveryInterleaving | src/upstream.ts:264-347 | in every interleaving: one call in flight at most, ready exactly with a handle, each handle stored or closed once, nothing stored after shutdown |
| UpstreamRegistry.NothingLeaks | src/upstream.ts:322-347 | after shutdown every handle ever delivered has been closed exactly once |
| UpstreamHistory.StateTells | src/upstream.ts:264-347 | in any run a record holds exactly the handle delivered to it, unless its connection broke since or shutdown came, and counts every failure before |
| UpstreamHistory.StartMakesCall | src/upstream.ts:264-300 | asking for a connection makes a call exactly when the upstream is enabled, holds nothing, has nothing pending, and nothing was shut down |
| UpstreamHistory.SettledAllowsRetry | src/upstream.ts:264-320 | once a start is settled the upstream can be started again exactly if it failed or broke before any shutdown |
| Deadline.ExactlyOneOwner | src/upstream.ts:99-142 | a delivered value goes to the caller or, after a timeout, once to the late cleanup |
| Deadline.FirstDecides | src/upstream.ts:99-142 | the first of value, failure and timer decides; the timer stays armed until it fires or the caller goes on |
| ChildOutput.StoreCaptures | src/subprocess.ts:310-330 | one chunk: the captured bytes stay the first ones, however the output is cut into chunks, and the chunk is cut exactly when it goes over the limit |
| ChildOutput.ResultText | src/subprocess.ts:245-276 | the text of a stream of well-formed output: its longest whole-character prefix within the captured bytes, and where one U+FFFD follows it |
| ChildProcess.EveryRun | src/subprocess.ts:304-330 | output in memory: captured bytes are the first ones delivered, for any chunking; the limit is met exactly when more came; one graceful request at most |
| ChildProcess.SettlesOnce | src/subprocess.ts:258-289 | output in memory, to files or to failed files: the first error or exit decides the result; nothing later changes it or sends a signal; the caller gets it, or an error exactly when the capture failed |
| ChildSignals.ResultMeans | src/subprocess.ts:258-289 | what a result says of exit, failure, timeout and cancellation is what happened before the end |
| ChildSignals.SignalsMean | src/subprocess.ts:290-340 | one graceful request exactly when something asked for it, the limit was met or the capture failed before the end; a forced one for each time the grace ran out or it was asked for |
| ChildFiles.FilesHoldTheFirstBytes | src/subprocess.ts:62-94 | output to files: when the caller gets a result, the files hold the first bytes written, which are all those delivered before the end; the limit was signalled at most once |
| ChildFiles.FilesReportTheLimitIff | src/subprocess.ts:338-368 | the result reports the limit exactly when the first chunk of each stream, and one more for each chunk its file took before the end, exceed it |
| ChildFiles.NothingUnreported | src/subprocess.ts:62-94 | at limit 0, or with one chunk per stream, the limit is reported exactly when more was delivered |
| ChildFiles.CutWithoutReport | src/subprocess.ts:62-94 | for every limit above 0 and every two chunks that cross it only together, a run whose output is cut and whose result does not say so |
| ChildRunner.ChildRun.OnData | src/subprocess.ts:310-330 | one chunk in memory or handed to a writer, which begins it when free: what still fits is kept, and only going over the limit asks for termination |
| ChildRunner.ChildRun.OnWriteDone | src/subprocess.ts:62-78 | one chunk taken by its file: the writer begins those that wait until one is on its way, and crossing the budget is signalled once |
| ChildRunner.ChildRun.OnCaptureFailed | src/subprocess.ts:52-54 | an error of a file breaks its writer, drops what waits and asks for termination |
| ChildRunner.ChildRun.OnKillTimer | src/subprocess.ts:290-303 | the grace period ends: forces termination without asking whether the run has ended, and it has not |
| ChildRunner.ChildRun.ForceTermination | src/subprocess.ts:512-538 | the managed form forces termination unless settled, and marks the timeout when its lifetime is over |
| ChildRunner.ChildRun.OnEnd | src/subprocess.ts:258-289 | settles at most once, disarms both timers and the abort listener, and reports the limit exactly when what was captured exceeds it |
| AtomicReplace.TargetDirectory.ReplaceFileAtomically | src/atomic-file.ts:47-97 | the outcome is exactly the one the steps that failed call for; for every fault: old on pre-effect, new on post-effect, new and synced on return; the new file has the content and the mode asked for, else the permission bits of the old file, else 0666 under the mask; for every crash: old or new; a temporary file is left only when every removal failed |
| AtomicReplace.TargetDirectory.Replace | src/atomic-file.ts:63-79 | the classified steps: renamed exactly when every step up to there was done, and then the destination is new, synced before |
| AtomicReplace.TargetDirectory.CleanupTemporaryFile | src/atomic-file.ts:151-179 | three attempts, and when an error is reported |
| Appliance.DecompressAndHash | host-bootstrap/src/appliance.rs:669-737 | never more than the bound is written; digest and size of the whole content, or the error of a broken or oversized stream or of a failing file, and then no file stays |
| Appliance.VerifiedIsSound | host-bootstrap/src/appliance.rs:195-348 | a verified disk has the digest and size its record says, and those expected when an identity is |
| Appliance.VerifiedHasEvidence | host-bootstrap/src/appliance.rs:195-348 | a verified disk comes with all evidence: a manifest of three layers of the three media types; manifest, metadata and raw blob each of its layer's size and digest; revisions, name, format, digests and sizes that agree; the decompressed raw blob with the digest and size named |
| Appliance.EvidenceVerifies | host-bootstrap/src/appliance.rs:195-348 | and whenever there is all that evidence the disk is verified |
| Appliance.InspectMeans | host-bootstrap/src/appliance.rs:354-438 | what inspection says, from the record and the disk alone |
| Appliance.ReferenceMeans | host-bootstrap/src/appliance.rs:82-106 | exactly which references are taken |
| Appliance.ApplianceStore.EnsureAppliance | host-bootstrap/src/appliance.rs:163-352 | over a sound store: returns a disk that inspection accepts and that was in place untouched, or was fetched with all evidence; with the expected identity when bound; keeps every record sound and other digests untouched, wherever it is stopped |
| Appliance.RunKeeps | host-bootstrap/src/appliance.rs:163-438 | records stay sound, other directories untouched, and the returned disk is the expected one, fetched or cached |
| Appliance.RunOutcome | host-bootstrap/src/appliance.rs:163-352 | how a run ends for every finding of inspection; what it returns was accepted in place or fetched with all evidence, and it returns whenever there is such evidence and nothing stops it |
| Appliance.SecondRunReuses | host-bootstrap/src/appliance.rs:159-176 | a successful run is reused by the next whatever the source would answer |
| Appliance.ReturnedDiskIsExpected | host-bootstrap/src/appliance.rs:163-438 | over any history from an empty root, a returned disk for a bound reference has the expected digest and size |
| InitArguments.FindUnconsumedArgument | src/init.ts:121-145 | the index loop finds the first token no option accounts for |
| InitArguments.LookupAgrees | src/cli-flags.ts:23-32 | a lookup over the whole line finds what the scanner reads as the first use of an option |
| InitArguments.CountAgrees | src/cli-flags.ts:60-64 | occurrences counted over the whole line are the uses the scanner reads |
| InitArguments.ParseArguments | src/init.ts:147-181 | accepts exactly lines of known options, each value option at most once with a legal value, and records what they say; an error names the option or token at fault |
| InitMeaning.RecordMeans | src/init.ts:164-181 | every field of the record holds what the line gives for the option that fills it |
| InitMeaning.GrammarMeans | src/init.ts:112-145 | the options there are and the ways to write each |
| InitMeaning.AcceptanceMeans | src/init.ts:147-163 | accepted lines: legal options, value options once, choices among those offered |
| InitArguments.OrderAndSpellingDoNotMatter | src/init.ts:147-181 | acceptance and record do not depend on option order or on the two spellings of a value |

## Left out

- Lone surrogates outside the text cutters, and texts whose U+FEFF a decoder strips: text is Unicode scalar values.
- The FAT reader mounts volumes with 512-byte sectors only, which is what the writer produces.
- Key generation, permissions and reading of the key files of the bootstrap disk.
- Numbers: schemas and their values use integers (no fractions, no negative zero); the canonical printer takes the text of a number as given.
- CanonicalJson.PrintsIffSerializable: cyclic values and objects with a prototype of their own, which the printer also refuses, are not values of the model.
- The depth- and width-bounding of result values.
- Regular expressions: whether a pattern compiles and what it matches is a parameter.
- Rendering of issue paths and messages, and their length limits.
- SchemaModel.JsonEqualIff: two references to one object, which compare equal at any depth, are not modelled: values have no identity.
- SchemaValidator.AddScalarConstraints: an `enum` that is not an array passes inspection and makes the validator throw (src/mcp-tool-validation.ts:391); schemas of the model have an array there.
- SchemaExactness.CleanIffSatisfies: holds where no counter or size guard fires and where `ScalarReaches` holds of the values visited, because elsewhere the validator reports guards, refuses deep constants and unsafe integers, or rounds a quotient to an integer.
- SchemaSoundness.CleanImpliesSatisfies: holds where `DivisionsReach` does, because elsewhere a rounded quotient can pass for a multiple.
- The error paths of directory reading, and the view limits of listed files.
- Reading `rg` output as JSON: events are given; a malformed one keeps its text.
- Fractional byte limits and serialization hooks on artifact metadata.
- ArtifactStore.InMemoryArtifactStore.Search: lower-casing and what the text of an entry is are a parameter.
- UpstreamRegistry.UpstreamRegistry.Start: error texts, time stamps and a connector that throws before returning a promise are not modelled.
- Backpressure between a child and its files: it only restricts the order of events, and the model allows every order.
- ChildOutput.ResultText: the text decoded from output that is not well-formed UTF-8 is not modelled.
- ChildRunner.ChildRun.OnEnd: the fallback from group to child signals, and runs that were aborted before they began or failed to start, are not modelled.
- AtomicReplace.TargetDirectory.ReplaceFileAtomically: a failing rename or removal is taken to have no effect, and old directory entries to be on the disk.
- Appliance: SHA-256, the JSON readers and the decompressor are parameters; file permissions and the download bounds of a source are not modelled.
- Prompting, client registration and diagnosis after the arguments of `init` are parsed.
- Log rotation, telemetry, configuration, catalogs, workflow and context runtime, command dispatch and server wiring.
