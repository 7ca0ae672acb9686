# AssemblyAnalyzer core, modelled in Dafny

AssemblyAnalyzer reads a .NET assembly through its metadata and writes a JSON summary. The summary holds:

- every type the assembly defines, each with its kind and its methods;
- for every method: its parameters, IL bytes, size, decompiled source and string literals, and the methods it calls;
- the functions and types it imports, and the types it exports;
- a few fields of the PE header.

This project models the core of that analysis and proves properties of the model:

- **Unique keys** (`UniqueNaming.cs`). Every type definition, type reference, exported type, method definition, member reference and call site gets a string key. Each key ends with `|0x` and the row's metadata token as eight upper-case hex digits. The model proves that each key reads back to its token, so two different rows never share a key. It also proves the structure of each key:
  - the namespace prefix and the `+`-joined chain of declaring types;
  - the parameter list, which skips the return-value parameter;
  - the signature-hash segment and the accessibility/flag segment. Both decode back to what went in.
- **Pass 1** (`Program.cs:84-188`). This pass goes through every type in table order and builds its record. For each method of the type that is not skipped, in list order, it builds that method's record:
  - the parameter names `param1..paramN`;
  - the IL-bytes text: hex pairs separated by spaces, or one of the three sentinel texts;
  - the per-method call index;
  - the decompiled text.

  It also fills the method lookup. The model proves that `Dictionary.Add` never meets a duplicate key, and that the lookup holds exactly the methods that were not skipped.
- **Pass 2** (`Program.cs:192-226`). This pass resolves every call-index entry: a miss gives the fallback name at address 0. On a hit the code as written records the calling method's own name and RVA (see Findings). The model provides both the as-written and the corrected behaviour, and proves what each records.
- **Imported functions, imported types and exported types** (`Program.cs:229-264`). The model proves that the `Any` duplicate check never drops anything: every key carries its own token.
- **Command-line parsing** (`Settings.cs:41-121`). The model covers the minimum argument count, the flag switch, value flags and the final checks. It proves:
  - exact acceptance conditions;
  - what repeated flags do;
  - that an unknown argument, `--help` included, rejects the list wherever the loop reads it as a switch, while after a value flag it is taken as that flag's value;
  - that every field not named on the command line keeps its default.

The metadata reader is modelled as a value, `Metadata.Store`:
- each table is a sequence, and a handle is its 0-based row;
- a token is the table number times 2^24, plus the row index, plus 1;
- what the reader and the decoders supply (decoded signature types, the IL bytes, the call instructions a visitor finds, the decompiler's output) are fields of the rows.

Records are Dafny datatypes. Every statement loop the source has (`for`, `foreach`, `while`) is a Dafny `method` with a `while` loop; the LINQ `Select` and `Any` calls are expressions. Each one is proved equal to a specification function, and the properties are proved about that function.

Files:

| file | module | contents |
|---|---|---|
| `wrappers.dfy` | `Wrappers` | `Option` |
| `formatting.dfy` | `Formatting` | hex and decimal formatting, and how they read back; `Join`; `ReplaceChar` |
| `metadata.dfy` | `Metadata` | tables, tokens, rows, the declaring-type chain, well-formedness |
| `unique_naming.dfy` | `UniqueNaming` | the key builders |
| `data_model.dfy` | `Records` | the records the analysis serialises |
| `call_index.dfy` | `CallIndex` | the per-method `CalledMethodHandles` dictionary |
| `method_scan.dfy` | `MethodScan` | type kind, parameters, IL-bytes text, one method's record |
| `settings.dfy` | `CommandLine` | `LoadSettings` |
| `analyzer.dfy` | `Analyzer` | pass 1, pass 2, imported and exported lists, the whole analysis |

## Model

| member | source | states |
|---|---|---|
| Formatting.Hex8 | UniqueNaming.cs:41 | The `X8` text of a token is eight hex digits that parse back to the token. |
| Formatting.Hex8Injective | UniqueNaming.cs:41 | Two tokens with the same `X8` text are equal. |
| Formatting.Decimal | UniqueNaming.cs:41 | The decimal text of a number is non-empty, has only digits and parses back to the number. |
| UniqueNaming.KeyTokenOfSuffix | UniqueNaming.cs:41 | A key that ends with `\|0x` and a token's `X8` text reads back to exactly that token. |
| UniqueNaming.DistinctTokensDistinctKeys | UniqueNaming.cs:41 | Keys that end with different tokens are different strings. |
| UniqueNaming.NestedName | UniqueNaming.cs:19-30 | The declaring-type loop produces the chain's names, outermost first, joined by `+`. |
| UniqueNaming.TypeDefKey | UniqueNaming.cs:11-42 | The method builds the type-definition key: namespace prefix, nested name, the backtick, the generic arity and the token suffix. |
| UniqueNaming.TypeDefKeyEndsWithToken | UniqueNaming.cs:41 | A type-definition key ends with its own token. |
| UniqueNaming.TypeDefKeysDistinct | UniqueNaming.cs:11-42 | Different type definitions have different keys. |
| UniqueNaming.TypeDefKeyTopLevel | UniqueNaming.cs:22-41 | A type with no declaring type is keyed by its namespace prefix and its own name. |
| UniqueNaming.TypeDefKeyNested | UniqueNaming.cs:22-30 | A nested type's name is its declaring type's nested name, then `+`, then its own name. The namespace is the one of the nested type itself. |
| UniqueNaming.TypeRefKey | UniqueNaming.cs:45-63 | A type-reference key ends with the reference's token. |
| UniqueNaming.TypeRefKeysDistinct | UniqueNaming.cs:45-63 | Different type references have different keys. |
| UniqueNaming.ExportedTypeKey | UniqueNaming.cs:66-84 | An exported-type key ends with the exported type's token. |
| UniqueNaming.ExportedTypeKeysDistinct | UniqueNaming.cs:66-84 | Different exported types have different keys. |
| UniqueNaming.StripLeadingDot | UniqueNaming.cs:99-101 | A name whose first character is `.` loses exactly that one character; a name whose first character is not `.` is unchanged (an ordinal test; see Left out). |
| UniqueNaming.StripLeadingDotExamples | UniqueNaming.cs:99-101 | `.ctor` becomes `ctor`, `..x` becomes `.x`, and `Foo` and the empty name stay as they are. |
| UniqueNaming.ParameterNamesAppend | UniqueNaming.cs:107-116 | The parameter-name list of a concatenation is the concatenation of the two lists. |
| UniqueNaming.ParameterNamesSkipReturnValue | UniqueNaming.cs:108-115 | A parameter with sequence number 0, wherever it stands, contributes no name. |
| UniqueNaming.ParameterNamesOfParameters | UniqueNaming.cs:107-116 | Without a return-value row, the list holds every parameter's name, in order. |
| UniqueNaming.MethodDefKey | UniqueNaming.cs:90-125 | The method builds the method-definition key from the type key, the stripped name, the arity, the parameter names, the attribute text and the token. |
| UniqueNaming.MethodDefKeyEndsWithToken | UniqueNaming.cs:124 | A method-definition key ends with the method's own token. |
| UniqueNaming.MethodDefKeysDistinct | UniqueNaming.cs:90-125 | Different method definitions have different keys, even when listed under different types. |
| UniqueNaming.SignatureSegmentReadsBack | UniqueNaming.cs:149-154 | The segment is empty exactly when there is no signature hash. Otherwise it carries the hash's unsigned 32-bit value in hex. |
| UniqueNaming.MemberRefKey | UniqueNaming.cs:128-157 | The method builds the member-reference key from the parent's name, the member name, the signature segment and the token. |
| UniqueNaming.MemberRefKeyEndsWithToken | UniqueNaming.cs:156 | A member-reference key ends with the reference's own token. |
| UniqueNaming.MemberRefKeysDistinct | UniqueNaming.cs:128-157 | Different member references have different keys. |
| UniqueNaming.MemberRefKeyDeclaringPart | UniqueNaming.cs:133-138 | The key starts with the declaring type's name as the parent switch chooses it. |
| UniqueNaming.CallSiteKey | UniqueNaming.cs:162-189 | The method builds the call-site key from the declaring type, the name, the type-parameter count, the parameter types, the attribute text and the token. |
| UniqueNaming.CallSiteKeyEndsWithToken | UniqueNaming.cs:188 | A call-site key ends with the callee's token and reads back to it. |
| UniqueNaming.AttributeKeyDecodes | UniqueNaming.cs:179-182 | The accessibility/static/abstract/virtual text decodes back to the four values it was built from. |
| Metadata.TokenOfInjective | UniqueNaming.cs:41 | Within one table, different rows have different tokens. |
| Metadata.ChainUnique | UniqueNaming.cs:22-30 | A type has at most one chain of declaring types. |
| Metadata.NestingPathStep | UniqueNaming.cs:22-30 | A nested type's chain is its declaring type's chain, followed by the type itself. |
| MethodScan.TypeKind | Program.cs:91-93 | A type is an `Interface` exactly when its Interface bit is set, and a `Class` otherwise. The `Enum` and `Unknown` alternatives are never chosen. |
| MethodScan.SealedSpecialNameIsClass | Program.cs:91-93 | A sealed special-name type without the Interface bit is still reported as `Class`. |
| MethodScan.ParameterModels | Program.cs:109-111 | There is one parameter record per decoded type, in order, with that type. |
| MethodScan.ParameterNameReadsBack | Program.cs:110 | A parameter's name is `param` followed by its 1-based position in decimal. |
| MethodScan.ParameterNamesDistinct | Program.cs:109-111 | No two parameters of one method share a name. |
| MethodScan.ByteHex | Program.cs:142 | A byte's text is two hex digits that parse back to the byte. |
| MethodScan.IlBytesLayout | Program.cs:141-143 | For n > 0 bytes, the text is 3n-1 characters: two hex digits per byte, with one space between neighbours. |
| MethodScan.IlBytesReadBack | Program.cs:141-143 | The pair at position 3i parses back to byte i. |
| MethodScan.ScanBody | Program.cs:112-153 | Size, IL text and call index are those of the body-case analysis; IL that does not decode leaves the call index empty (see Findings). |
| MethodScan.SentinelsAreNotIlText | Program.cs:141-153 | No byte sequence's text equals one of the three sentinel texts. |
| MethodScan.BodyScanMeaning | Program.cs:112-153 | The size is the number of IL bytes, and the text lists them when there are any. RVA 0, a missing body and a body without a byte array each give their own sentinel. Calls are collected only from a body with a byte array whose IL decodes. |
| MethodScan.AsWrittenIlFailureEscapes | Program.cs:116-153 | As written, the scan of one method yields nothing exactly when its IL does not decode, and otherwise agrees with the isolated scan. |
| MethodScan.IlFailureIsolated | Program.cs:124-143 | Isolated, a method whose IL does not decode keeps its size and IL text and has no call records. |
| MethodScan.IlBytesTextSentinel | Program.cs:112-153 | The text is a sentinel exactly when the method has no IL bytes. |
| MethodScan.ScanMethod | Program.cs:105-184 | The method builds the record pass 1 builds for one method; at this point CalledMethods is empty. |
| MethodScan.MethodModelFacts | Program.cs:105-184 | The record is named by the method's own key and sized by its IL bytes. Its call index holds each called token once, exactly those the visited instructions call, and each one's fallback name ends with that token. |
| CallIndex.FallbackNames | Program.cs:136 | Each instruction that has a callee stores the call-site key of that callee. |
| CallIndex.BuildCallIndex | Program.cs:127-139 | The loop builds the call index that its specification function defines. |
| CallIndex.AddCallsAppend | Program.cs:127-139 | Processing two instruction lists one after the other is processing their concatenation. |
| CallIndex.NullCalleeIgnored | Program.cs:129-133 | An instruction whose callee is null changes nothing. |
| CallIndex.AddCallsKeys | Program.cs:127-139 | The loop keeps every existing entry, adds no token twice, and adds exactly the tokens its instructions call. |
| CallIndex.CallIndexDistinct | Program.cs:134-138 | No token is a key twice. |
| CallIndex.CallIndexKeys | Program.cs:127-139 | A token is a key exactly when some instruction calls it. |
| CallIndex.LaterCallsKeepFallback | Program.cs:134 | Later instructions never change a fallback name that is already stored. |
| CallIndex.CallIndexFirstFallback | Program.cs:134-137 | The fallback name kept for a token is the key of the first call site of that token. |
| CallIndex.CallIndexFallbacksCarryTokens | Program.cs:136-137 | Every stored fallback name ends with the token of its own entry. |
| CommandLine.Classify | Settings.cs:51-95 | A recognised argument is exactly the case label of the flag it names. |
| CommandLine.ClassifyFlagName | Settings.cs:51-95 | Each case label is recognised as its own case. |
| CommandLine.LoadSettings | Settings.cs:41-121 | The method returns what the specification function returns: no settings, or the scanned and checked settings. |
| CommandLine.TooFewArguments | Settings.cs:43-47 | Fewer than four arguments give no settings. |
| CommandLine.LoadSettingsAccepts | Settings.cs:41-121 | Settings are returned exactly when all of the following hold: there are at least four arguments; the scan accepts every argument it visits; the assembly path and the output path are set; the assembly exists; and a PDB path, if given, exists. |
| CommandLine.ValueIsConsumed | Settings.cs:55-87 | A value flag takes the next argument as its value, and that argument is never read as a flag. |
| CommandLine.TrailingValueFlag | Settings.cs:55-87 | A value flag in last position changes nothing. |
| CommandLine.PdbFlagSetsBoth | Settings.cs:81-87 | `--use-pdb-file` sets both the PDB path and symbol loading. |
| CommandLine.BooleanFlagStep | Settings.cs:63-90 | A flag without a value sets its field and moves to the next argument. |
| CommandLine.RepeatedBooleanFlag | Settings.cs:63-90 | Giving a flag without a value twice is the same as giving it once. |
| CommandLine.RepeatedValueFlag | Settings.cs:55-87 | The later value of a repeated value flag wins. |
| CommandLine.UnknownArgumentRejected | Settings.cs:91-93 | Without value flags, one unknown argument anywhere rejects the whole list. |
| CommandLine.UnknownSwitchRejected | Settings.cs:51-95 | An argument that is no case label, at any position the loop reads as a switch, rejects the whole list. |
| CommandLine.HelpRejected | Settings.cs:51-95 | `--help` or `-h` at any position the loop reads as a switch gives no settings. |
| CommandLine.HelpAsValueAccepted | Settings.cs:55-58 | After `--assembly`, `--help` is not read as a switch: it becomes the assembly path, and the settings are accepted when that file exists. |
| CommandLine.ScanStep | Settings.cs:51-95 | One step consumes one or two arguments. It only turns flags on, and it changes only the fields of the flag it reads. |
| CommandLine.ScanMonotone | Settings.cs:51-95 | The scan only ever turns flags on. |
| CommandLine.MentionedFlagsAreNamed | Settings.cs:51-95 | Every flag the scan matches is written literally among the arguments. |
| CommandLine.ScanTouches | Settings.cs:51-95 | Every field the scan changes is changed by a flag that its arguments name. |
| CommandLine.UntouchedFieldsKeepDefaults | Settings.cs:8-17 | In accepted settings, every field whose flag is absent from the arguments keeps its default: false, or the empty path. |
| Analyzer.MethodDefTokenRow | Program.cs:172 | A method's token names a method definition of this image, and that token's row is the method. |
| Analyzer.LookupOf | Program.cs:172 | Every entry of the lookup maps a method-definition token to that token's own row. |
| Analyzer.InsertMethodsFaithful | Program.cs:97-185 | Adding the methods of one type keeps every entry of the lookup mapped to its own row. |
| Analyzer.InsertMethodsHas | Program.cs:97-185 | After the first n methods of a type, a token is present exactly when it was present before, or its method is among those n and not skipped. |
| Analyzer.LookupUpToHas | Program.cs:84-188 | After n types, the lookup holds exactly the unskipped methods listed under those types. |
| Analyzer.LookupOfHas | Program.cs:84-188 | The lookup pass 2 reads holds a method exactly when pass 1 did not skip it, under its own token and with its own row. |
| Analyzer.KeptMethodsExact | Program.cs:100-103 | A method is kept exactly when it is listed and not skipped. |
| Analyzer.KeptRecordsOfKept | Program.cs:97-185 | The k-th record of a type is the record of the k-th kept method. |
| Analyzer.NotYetInserted | Program.cs:172 | `Dictionary.Add` never meets a key that is already present. |
| Analyzer.ScanTypeMethod | Program.cs:97-185 | One pass of the method loop takes the method records and the lookup from j methods to j+1. |
| Analyzer.ScanTypeMethods | Program.cs:97-185 | The method loop produces the type's records and its additions to the lookup. |
| Analyzer.ScanTypeReady | Program.cs:97 | Before a type is scanned, none of its methods is in the lookup. |
| Analyzer.ScanType | Program.cs:86-187 | The type's record is appended, and its methods are added to the lookup. |
| Analyzer.Pass1 | Program.cs:84-188 | The loop produces the type records and the lookup of their specification functions. |
| Analyzer.TypeModelContents | Program.cs:86-187 | A type's record has its key and its kind. Its k-th method record is that of the type's k-th unskipped method. A method appears under the type exactly when it is listed there and not skipped. |
| Analyzer.ResolveCalls | Program.cs:196-224 | The method appends one record per call-index entry to CalledMethods. |
| Analyzer.ResolveType | Program.cs:194-224 | Every method of a type is resolved, and the order is kept. |
| Analyzer.Pass2 | Program.cs:192-226 | Every type is resolved, and the order is kept. |
| Analyzer.MissRecordsFallback | Program.cs:200-214 | A miss records exactly the entry's fallback name at address 0, and that name ends with the callee's token. |
| Analyzer.AsWrittenHitIgnoresCallee | Program.cs:216-222 | As written, every hit of one caller gives the same record: the caller's name and RVA. |
| Analyzer.AsWrittenHitMisnamesCallee | Program.cs:216-222 | As written, a call to a different resolved method of the image is recorded under the caller's key, not the callee's. |
| Analyzer.CorrectedHitNamesCallee | Program.cs:216-222 | Recording the callee, a hit gives the callee's key and the callee's RVA. |
| Analyzer.SkippedCalleeMisses | Program.cs:100-103 | A call to a skipped method resolves as a miss. |
| Analyzer.ForeignTokenMisses | Program.cs:200 | A token that names no method-definition row of the image, whatever token the call instruction's resolved method reports, resolves as a miss. |
| Analyzer.ForwardCallNeedsSecondPass | Program.cs:190-200 | A callee declared by a later type is not yet in the lookup when the caller is scanned. It is in the lookup pass 2 reads. |
| Analyzer.ResolvedTypesShape | Program.cs:192-226 | Pass 2 leaves each record as it was, except that CalledMethods gets one record per call-index entry, in index order. |
| Analyzer.AddUnseenDistinct | Program.cs:236 | The `Any` check keeps full names unique. |
| Analyzer.AddUnseenOfDistinct | Program.cs:236 | On names that are already distinct, the `Any` check drops nothing. |
| Analyzer.CollectImportedFunctions | Program.cs:229-244 | The loop's list is the one its specification function defines. |
| Analyzer.EligibleRowsExact | Program.cs:232-233 | A member reference is imported exactly when its parent is a type reference and its kind is Method, and the rows stay in ascending order. |
| Analyzer.ImportCandidatesRows | Program.cs:229-244 | There is one candidate key per qualifying row, in row order. |
| Analyzer.ImportedFunctionsAreEligibleRows | Program.cs:229-244 | The list holds the key of every qualifying member reference, in table order, and no full name twice. |
| Analyzer.CollectImportedTypes | Program.cs:247-254 | There is one entry per type reference, holding its key. |
| Analyzer.CollectExportedTypes | Program.cs:257-264 | There is one entry per exported type, holding its key. |
| Analyzer.TypeListsDistinct | Program.cs:247-264 | No two imported types, and no two exported types, share a name. |
| Analyzer.AnalyzeAssembly | Program.cs:43-264 | The method returns no result when the image has no PE header, and otherwise the analysis result that its specification function defines. |
| Analyzer.AnalysisContents | Program.cs:49-264 | There is one record per type, named by its key and with its kind, whose methods are the type's unskipped methods with their calls resolved. The imported functions are one per qualifying member reference, with no repeats. |
| Analyzer.AsWrittenIlFailureEndsRun | Program.cs:125-126 | As written, one scanned method whose IL does not decode leaves the run without a result. |
| Analyzer.IlFailureIsolatedInAnalysis | Program.cs:97-185 | Isolated, the run still gives a result, and that method is still among its type's records, with its size and without call records. |

## Left out

- File and console I/O, the JSON serialisation and the output paths (`Program.cs:37-41`, `Program.cs:63`, `Program.cs:297-313`). The image is given as a `Analyzer.Image` value: the file's length, the PE header if there is one, and the metadata.
- `Main` (`Program.cs:22-33`) is left out. It calls `Settings.LoadSettings` with an `out` parameter, which does not match the single-argument signature defined at `Settings.cs:41`.
- The decompiler, which is external code:
  - the decompiled text, its normalised form and the string literals its visitor finds are given per method as a `Metadata.Decompilation` value;
  - as a consequence, the settings that only configure the decompiler (dead-code and dead-store removal, nested directories, symbol loading, formatting) are parsed but have no further effect in the model;
  - the full-project decompilation (`Program.cs:266-289`) is left out;
  - `AstVisitors.cs` is not part of this model.
- A visitor that throws after collecting some literals is folded into the given outcome: the model does not capture which literals survive the exception.
- `Regex.Unescape` on the decompiled text is given, as `normalizedText`.
- Values the .NET runtime computes are taken as given fields of the metadata rows:
  - `MethodBodyBlock.GetILBytes`, `ReadIL` and the signature decoder;
  - the `GetHashCode` of a member reference's signature blob;
  - the `ToString` text of method attributes.
- Exceptions thrown by the metadata reader, by `peReader.GetMethodBody` (`Program.cs:118`) or by the signature decoder (`Program.cs:107`). None of these calls has a handler of its own, so any of them ends the whole run through the outer `catch` (`Program.cs:291-295`). The exceptions of `assemblyFile.GetMethodBody` and `ilReader.ReadIL` (`Program.cs:125-126`) are modelled as `Metadata.IlReadThrew`: the model isolates them to the one method, where the source ends the run (see Findings).
- Mutation in place: the DataModel classes are modelled as values, and pass 2 builds new records where the source mutates them. No record is reachable twice in the source, so no aliasing is lost.
- The lookup is a `map`, and each `CalledMethodHandles` dictionary is the sequence of its entries in insertion order. This is the order in which a dictionary that is only ever added to enumerates its entries.
- The metadata is assumed well formed (`Metadata.WellFormed`):
  - declaring-type chains end. On a cyclic chain the loop at `UniqueNaming.cs:24-30` never ends: `fullTypeName` grows until memory runs out and the outer `catch` ends the run. `Metadata.HasChain` excludes such input;
  - a type lists only methods it declares, each once. A method need not be listed at all; `Analyzer.Listed` says whether it is;
  - method declaring types and member-reference parents are in range.
- Tables hold fewer than 2^24 rows, so a row index fits a token.
- UniqueNaming.StripLeadingDot: the model strips a leading `.` by an ordinal test of the first character. `StartsWith(".")` at `UniqueNaming.cs:100` and `UniqueNaming.cs:142` compares with the current culture, which can also match a `.` that follows characters the culture ignores (a soft hyphen, U+00AD, say). No culture is modelled.
- Tokens reported by a call instruction's resolved method are taken as given. A method resolved in another module can report a method-definition token of that module, which may equal a row of this image; the model does not tell such tokens apart.
- `Settings.PdbFilePath` is a `string` in the model, and a null path is the empty string.
- MethodScan.TypeKind: the `Enum` and `Unknown` results are never returned, because `TypeAttributes.Class` is zero and `HasFlag(Class)` always holds. The contract states this outright instead of listing four outcomes.

## Findings

| source | as written | input that shows it | evidently intended | confidence | as-written member | corrected member |
|---|---|---|---|---|---|---|
| Program.cs:216-222 | On a lookup hit, pass 2 records `method.Name` and `method.RVA`: the calling method's own key and address. | Method A calls method B, both defined in the image and not skipped. A's CalledMethods entry for B reads A's key and A's RVA. | Record the resolved callee: its unique key and its RVA. | not executed | Analyzer.AsWrittenHitMisnamesCallee | Analyzer.CorrectedHitNamesCallee |
| Program.cs:125-126 | `assemblyFile.GetMethodBody` and `ilReader.ReadIL` run inside the method loop without a handler of their own, so an exception reaches `Program.cs:291-295` and the run ends with no report. | A method that pass 1 scans and whose body has IL bytes that the IL reader cannot decode. | A method whose IL does not decode is a failure of that method only: it keeps its size and IL text, records no calls, and scanning goes on. | not executed | Analyzer.AsWrittenIlFailureEndsRun | Analyzer.IlFailureIsolatedInAnalysis |
