# GalaxyHeaderTool core, modelled in Dafny

GalaxyHeaderTool is a code generator for a C++ engine. It walks a source
tree and takes every regular file with extension `.h` and every entry with
extension `.hpp`, unless its path contains `.generated` anywhere. It skips a
header whose glue header is at least as new, outside a debug build. Each other header is
read line by line. A `CLASS()` marker starts a class block, and braces are
counted until the block closes. The tool notes the line of the last
`GENERATED_BODY()` marker, finds the class name and base class, and collects
the `PROPERTY(...)` fields and `FUNCTION() void name()` methods outside
comments. It then writes two files for the header:

- `<stem>.generated.h`: a `<ID>_<line>_GENERATED_BODY` macro per class plus
  one `END_FILE()` macro with the exported create/get/set/call entry points;
- `<stem>.gen`: a metadata file listing each class's name, properties and
  methods.

A class block whose header names no class stops the whole run.

The modules follow the structure of `src/HeaderTool.cpp`:

| module | file | models |
|---|---|---|
| `Text` | text.dfy | character classes of the "C" locale, `std::to_string`, `std::getline` |
| `Records` | records.dfy | `ClassProperties`, `Property`, `HeaderProperties`, the one parse error |
| `Recognisers` | recognisers.dfy | the block-comment and `FUNCTION()` patterns (the other two patterns' matches are inputs) |
| `Declarations` | declarations.dfy | `ParseClassHeader`, `ParseClassProperties`, `ParseClassMethods`, the comment filter |
| `Scanner` | scanner.dfy | the line loop of `ParseHeaderFile` |
| `Paths` | paths.dfy | `filename()`, `stem()`, `extension()`, `operator/` |
| `Glue` | glue.dfy | `CreateGeneratedFile` |
| `Metadata` | metadata.dfy | `CreateGenFile` |
| `Tool` | tool.dfy | `ParseFiles`, the staleness test, `ParseHeaderFile`, the `HeaderTool` class |

Code that builds results step by step is modelled by methods with loops,
each proved equal to a specification function:

- the scanner loop;
- the `sregex_iterator` loops;
- the `getline(',')` token loop;
- the path-identifier passes;
- the nested `+=` loops of both emitters;
- the directory loop.

Each function is paired with an independent description or an inverse:

- the scanner fold is paired with a whole-input description of the blocks;
- the metadata events are paired with a decoder, with a round-trip proof;
- the glue header is paired with layout lemmas that locate each class's
  macro and entry points;
- running the tool is paired with a second run, proved to write nothing.

## Model

| member | source | states |
|---|---|---|
| Text.ToUpper | src/HeaderTool.cpp:283-287 | `toupper` maps `a`..`z` to the upper-case letter 32 code points below and leaves every other character alone |
| Text.Decimal | src/HeaderTool.cpp:392 | `std::to_string` of a count is a non-empty digit string with no leading zero unless it is `0` |
| Text.DecimalRoundTrip | src/HeaderTool.cpp:392 | reading the decimal text back gives the number |
| Text.DecimalInjective | src/HeaderTool.cpp:392 | different argument indices get different `Argument <i>` keys |
| Text.FindChar | src/HeaderTool.cpp:67 | the first occurrence of a delimiter at or after a position, or none |
| Text.GetlineNext | src/HeaderTool.cpp:67 | one `getline` call yields the text up to the delimiter and resumes past it |
| Text.GetlineSegmentsNoDelimiter | src/HeaderTool.cpp:67 | no line `getline` yields contains the delimiter |
| Text.GetlineSegmentsSplit | src/HeaderTool.cpp:205 | `getline` yields the delimiter-separated pieces, minus a trailing empty one |
| Text.GetlineRoundTrip | src/HeaderTool.cpp:67 | joining the lines with the delimiter restores the text, plus the final delimiter if there was one |
| Text.SplitJoin | src/HeaderTool.cpp:205 | splitting at a delimiter and joining back is the identity |
| Recognisers.CloseFrom | src/HeaderTool.cpp:169 | the first `*/` at or after a position, or none |
| Recognisers.BlockCommentsFrom | src/HeaderTool.cpp:169-181 | the comment ranges are `/*`...`*/` spans with no `*/` inside, in order and disjoint |
| Recognisers.BlockCommentsComplete | src/HeaderTool.cpp:169-181 | every `/*` that has a `*/` behind it and lies inside no comment found before it starts a comment range, so no comment is missed |
| Recognisers.SkipSpaces | src/HeaderTool.cpp:225 | `\s*` consumes exactly the maximal run of white space |
| Recognisers.SkipWord | src/HeaderTool.cpp:225 | `\w*` consumes exactly the maximal run of word characters |
| Recognisers.FunctionMatchAt | src/HeaderTool.cpp:225 | a method match at an offset starts with `FUNCTION()`, ends with `)` and captures a word |
| Recognisers.MatchTableWellFormed | src/HeaderTool.cpp:234 | every match in the table lies inside the text and is non-empty |
| Recognisers.LeftmostMatchesSound | src/HeaderTool.cpp:234-244 | every match the iteration yields is the match at its own start offset |
| Recognisers.LeftmostMatchesDisjoint | src/HeaderTool.cpp:234-244 | the matches the iteration yields do not overlap and come in order |
| Recognisers.LeftmostMatchesComplete | src/HeaderTool.cpp:234-244 | a match at an offset that no yielded match covers is yielded itself |
| Recognisers.FunctionMatchesSound | src/HeaderTool.cpp:224-244 | the `FUNCTION()` matches of a block are genuine matches, disjoint and in order |
| Recognisers.FunctionMatchesComplete | src/HeaderTool.cpp:224-244 | every `FUNCTION()` match of the block that starts inside no enumerated match is enumerated, so with soundness the list is exactly the leftmost non-overlapping matches |
| Declarations.ParseClassHeader | src/HeaderTool.cpp:130-156 | the first match names the class; the base is group 2 or else the class itself; no match leaves both names empty; base equals class exactly when there is no distinct base |
| Declarations.HeaderUsesFirstMatchOnly | src/HeaderTool.cpp:140-155 | matches after the first are ignored |
| Declarations.RFind | src/HeaderTool.cpp:195 | the last newline at or before the match, or none |
| Declarations.FindFrom | src/HeaderTool.cpp:196 | the first `//` at or after the line start, or none |
| Declarations.IsKept | src/HeaderTool.cpp:186-198 | a match is kept iff it starts outside every block comment and no `//` occurs at or before it with no line break between that `//` and the match |
| Declarations.LineCommentBeforeIff | src/HeaderTool.cpp:195-198 | the `rfind`/`find` test, `npos + 1` included, means a `//` at or before the match with no newline in between |
| Declarations.FirstNotSpace | src/HeaderTool.cpp:207 | the first non-space character of a token, or none |
| Declarations.LastNotSpace | src/HeaderTool.cpp:208 | the last non-space character of a token, or none |
| Declarations.TrimSpacesSpec | src/HeaderTool.cpp:207-208 | a trimmed token is a slice of the token with only spaces cut off both ends and no space at either end |
| Declarations.TrimmedSlice | src/HeaderTool.cpp:207-208 | the trimmed token is the slice from its first to its last non-space character, with only spaces outside it |
| Declarations.TrimAll | src/HeaderTool.cpp:205-210 | each token is trimmed, in order |
| Declarations.NoAttributesFromEmptyArguments | src/HeaderTool.cpp:202-210 | `PROPERTY()` has no attributes |
| Declarations.SingleAttribute | src/HeaderTool.cpp:202-210 | one word without commas or edge spaces is one attribute |
| Declarations.EditAttribute | src/HeaderTool.cpp:202-210 | `PROPERTY(edit)` has the single attribute `edit` |
| Declarations.AttributesShape | src/HeaderTool.cpp:205-210 | no attribute holds a comma or starts or ends with a space |
| Declarations.SplitArguments | src/HeaderTool.cpp:200-210 | the token loop yields the trimmed `getline(',')` segments |
| Declarations.KeptPropertiesAppend | src/HeaderTool.cpp:183-215 | the filter works match by match, so the order of matches is kept |
| Declarations.KeptPropertiesMembers | src/HeaderTool.cpp:183-214 | a property is recorded iff some match outside every comment produced it |
| Declarations.ParseClassProperties | src/HeaderTool.cpp:158-216 | the loop records exactly the kept matches' properties, in order |
| Declarations.KeptMethodsMembers | src/HeaderTool.cpp:244-263 | a method is recorded iff some kept `FUNCTION()` match names it |
| Declarations.KeptMethodNamesAreWords | src/HeaderTool.cpp:225-262 | every recorded method name is a run of word characters |
| Declarations.ParseClassMethods | src/HeaderTool.cpp:218-264 | the loop records exactly the kept method names, in order |
| Declarations.ParseClass | src/HeaderTool.cpp:97-108 | a block fails iff its header names no class; otherwise both names are non-empty and the line is the recorded one |
| Scanner.Step | src/HeaderTool.cpp:67-122 | one line advances the line number and closes at most one block, made of the collected text and this line |
| Scanner.ScanLine | src/HeaderTool.cpp:68-122 | one iteration of the line loop performs one scan step and reports exactly when it closes a block, made of the collected text and this line |
| Scanner.RunAppend | src/HeaderTool.cpp:67-123 | scanning two parts of a file in turn is scanning the whole |
| Scanner.CloseOf | src/HeaderTool.cpp:83-91 | the first line at which the brace counter, modulo 2^64, returns to zero on a `}` line |
| Scanner.LastGenerated | src/HeaderTool.cpp:117-122 | the recorded line number is the earlier one or a `GENERATED_BODY()` line of the range |
| Scanner.LastGeneratedIsLast | src/HeaderTool.cpp:117-122 | the recorded line number is the last `GENERATED_BODY()` line before the closing line, and stays the earlier one exactly when the block has none |
| Scanner.ScanFindsBlocks | src/HeaderTool.cpp:59-123 | the line loop closes exactly the blocks of the whole-file description |
| Scanner.BlocksAreClassRuns | src/HeaderTool.cpp:71-115 | every block's text is the joined slice of the file's lines from a `CLASS()` line to the first `}` line that balances it, and its line number marks `GENERATED_BODY()` or is 0 |
| Scanner.NoClosingBraceNoBlocks | src/HeaderTool.cpp:87-115 | a file without `}` yields no class |
| Scanner.ParseBlocksOk | src/HeaderTool.cpp:99-110 | a file parses iff every block names a class |
| Scanner.ParseBlocksClasses | src/HeaderTool.cpp:99-110 | a parsed file has one record per block, in closing order |
| Scanner.ParseBlocksErr | src/HeaderTool.cpp:101-104 | the error is that of the first block without a class name |
| Scanner.ParseBlocksErrSticks | src/HeaderTool.cpp:101-104 | nothing after the failing block changes the outcome |
| Scanner.ParseClosedBlock | src/HeaderTool.cpp:93-108 | a closed block gives its class record, or the missing-name error when its header names no class |
| Scanner.ParseLines | src/HeaderTool.cpp:59-123 | the loop returns the records of the blocks, or the first block's error |
| Scanner.ParseAbortsFile | src/HeaderTool.cpp:101-104 | throwing at a nameless block is the outcome for the whole file |
| Paths.LastIndexOf | src/HeaderTool.cpp:39 | the last occurrence of a character, or none |
| Paths.FileName | src/HeaderTool.cpp:39 | the file name holds no separator, ends the path, and is either the whole path or follows a `/` |
| Paths.ExtensionStart | src/HeaderTool.cpp:30 | the extension starts at the last dot that does not lead the name; there is none only for `.`, `..` or a name whose only dot leads it |
| Paths.StemExtension | src/HeaderTool.cpp:39 | stem followed by extension is the file name; the extension is empty or one dot and no other |
| Paths.JoinPath | src/HeaderTool.cpp:273 | `folder / name` ends with the name |
| Paths.JoinPathFileName | src/HeaderTool.cpp:273 | the file name of `folder / name` is the name |
| Glue.IdChar | src/HeaderTool.cpp:283-287 | letters and digits are upper-cased, every other character becomes `_` |
| Glue.PathIdShape | src/HeaderTool.cpp:281-287 | the identifier has the path's length and only upper-case letters, digits and `_` |
| Glue.ReplacePassRedundant | src/HeaderTool.cpp:282-287 | the `/` replacement pass changes nothing the transform would not |
| Glue.PathIdIdempotent | src/HeaderTool.cpp:281-287 | an identifier is its own identifier |
| Glue.PathIdCollision | src/HeaderTool.cpp:281-287 | `a/b.h` and `a_b.h` share one identifier |
| Glue.MakePathDefine | src/HeaderTool.cpp:281-287 | the two in-place passes compute the identifier |
| Glue.MacroNameInjective | src/HeaderTool.cpp:294 | two classes of one file get one macro name only when they record the same line |
| Glue.GeneratedBodyEnds | src/HeaderTool.cpp:294-335 | a body macro starts with its `#define` line and ends with `typedef <base> Super;` |
| Glue.GeneratedBodyCallsParent | src/HeaderTool.cpp:291-329 | the body asks `Super` for its class names iff the class has a distinct base |
| Glue.GeneratedFileEnds | src/HeaderTool.cpp:277-367 | the file starts with `#pragma once` and ends by defining `CURRENT_FILE_ID` as the identifier |
| Glue.GeneratedFileHasBody | src/HeaderTool.cpp:289-361 | every class's body macro appears, in class order |
| Glue.GeneratedFileHasExports | src/HeaderTool.cpp:337-363 | every class's entry points appear inside `END_FILE()`, in class order |
| Glue.ClassExportsStart | src/HeaderTool.cpp:337-338 | a class's entries open with its create entry |
| Glue.ClassExportsHasProperty | src/HeaderTool.cpp:340-348 | each property's get/set pair appears, in order |
| Glue.ClassExportsHasMethod | src/HeaderTool.cpp:350-359 | each method's call entry appears, after the properties, in order |
| Glue.GeneratedFileIgnoresTypes | src/HeaderTool.cpp:271-374 | property types and attributes do not affect the glue header |
| Glue.AppendClassExports | src/HeaderTool.cpp:337-359 | the per-class loops append the class's entries |
| Glue.CreateGeneratedFile | src/HeaderTool.cpp:271-374 | the method builds the glue header the specification function describes |
| Metadata.AppendPropertyEvents | src/HeaderTool.cpp:388-396 | the argument loop writes a property's map |
| Metadata.AppendClassEvents | src/HeaderTool.cpp:383-405 | the property and method loops write a class's map |
| Metadata.CreateGenFile | src/HeaderTool.cpp:376-407 | the method writes the event sequence the specification function describes |
| Metadata.ArgumentsRoundTrip | src/HeaderTool.cpp:389-393 | the attribute pairs read back as the attributes |
| Metadata.PropertyRoundTrip | src/HeaderTool.cpp:388-396 | a property map reads back as the property |
| Metadata.PropertiesRoundTrip | src/HeaderTool.cpp:385-397 | the property maps read back as the properties, counted by `Property Size` |
| Metadata.MethodsRoundTrip | src/HeaderTool.cpp:398-404 | the method maps read back as the method names |
| Metadata.ClassTailRoundTrip | src/HeaderTool.cpp:398-405 | the method part of a class map reads back |
| Metadata.ClassRoundTrip | src/HeaderTool.cpp:383-405 | a class map reads back as the class's name, properties and methods |
| Metadata.GenRoundTrip | src/HeaderTool.cpp:376-407 | the metadata file reads back as every class's name, properties and methods |
| Metadata.GenEventsExactlyViews | src/HeaderTool.cpp:376-407 | two headers give the same metadata iff their classes agree on name, properties and methods |
| Tool.DirectoryNamedHppSelected | src/HeaderTool.cpp:30 | a directory named `Menu.hpp` passes the test as written but not the intended one |
| Tool.HppExtension | src/HeaderTool.cpp:30 | a dot-free stem plus `.hpp` has extension `.hpp` |
| Tool.SelectionDiffers | src/HeaderTool.cpp:28-30 | the two tests differ exactly on non-regular `.hpp` entries outside the output |
| Tool.GeneratedHeaderPathMarked | src/HeaderTool.cpp:28-39 | every glue header path contains `.generated` |
| Tool.OutputsNotSelected | src/HeaderTool.cpp:28-30 | neither output of any header is ever selected as input |
| Tool.HeaderNotOverwritten | src/HeaderTool.cpp:28-39 | no header's output overwrites a selected header |
| Tool.OutputsDistinct | src/HeaderTool.cpp:376-380 | a header's glue header and metadata file are different paths |
| Tool.Apply | src/HeaderTool.cpp:273-380 | writing the outputs only adds or replaces files |
| Tool.RunFiles | src/HeaderTool.cpp:24-35 | a run only adds or replaces files |
| Tool.HeaderTool.constructor | src/HeaderTool.h:26 | the output folder starts empty |
| Tool.HeaderTool.SetGeneratedFolder | src/HeaderTool.h:16 | sets the output folder |
| Tool.HeaderTool.ParseHeaderFile | src/HeaderTool.cpp:37-128 | outside a debug build skip when up to date; otherwise give up on an unreadable file, stop at a nameless class, else write both outputs |
| Tool.HeaderTool.ReadHeaderFile | src/HeaderTool.cpp:51-127 | opening, scanning and writing give the outcome and the files the read specification describes |
| Tool.HeaderTool.ParseFiles | src/HeaderTool.cpp:24-35 | the directory loop is the run over the listing, stopping at the first error |
| Tool.ApplyNotAfter | src/HeaderTool.cpp:369-380 | outputs are stamped with the current time |
| Tool.ApplyKeepsSettled | src/HeaderTool.cpp:39-48 | writing any header's outputs keeps an up-to-date header up to date |
| Tool.HeaderSettles | src/HeaderTool.cpp:37-128 | after a header is processed without error, its glue header is up to date or it is unreadable |
| Tool.RunSettles | src/HeaderTool.cpp:24-35 | after a run that finishes, every selected header is up to date or unreadable |
| Tool.SettledRunQuiet | src/HeaderTool.cpp:40-48 | a run over up-to-date headers writes nothing and finishes |
| Tool.RerunWritesNothing | src/HeaderTool.cpp:24-48 | outside a debug build, running again after a finished run writes nothing |
| Tool.SameStemShadowed | src/HeaderTool.cpp:39-47 | once a header is generated, another with the same stem that is not newer is skipped |
| Tool.WrittenOutputsCurrent | src/HeaderTool.cpp:39-47 | once outputs are written for one header, every selected header with the same stem finds its glue header up to date |

## Left out

- The regex engine. The class-header and `PROPERTY(...)` patterns (src/HeaderTool.cpp:133, 165) are not recognised in the model. Their match lists are inputs (`Recognisers.Matchers`), so the exact shapes those patterns accept are not modelled. The block-comment and `FUNCTION()` patterns are modelled by hand-written recognisers.
- The file system. Directory iteration order, real timestamps and the clock are inputs: a listing, file times and the write time `now`. Symbolic links, permissions and files changing during a run are not modelled.
- Tool.Apply: both outputs are always written. A failing `ofstream` or serializer, for example because the output folder does not exist, writes nothing in the source. The tool never creates the output folder; the model follows the code.
- Console output (`std::cout`/`std::cerr`). It is left out because it does not affect the files written.
- The on-disk text format of the metadata serializer. It belongs to another library, so the model stops at the sequence of calls made on it.
- `string_format`/`snprintf`: buffer sizing, and `%d` receiving a `size_t`. The model formats the line number as its decimal value.
- `ParseEnum`: it has an empty body and is never called.
- `src/main.cpp`: argument handling is not part of this model. It tests `argc <= 1` but reads `argv[2]`.
- `src/HeaderTool.h`: its declarations are older than the code they declare. Only the folder setter and field are modelled from it.
- Path conversion: `generic_string()` versus native separators. Paths are `/`-separated strings.
- Characters beyond ASCII: `std::isalnum` and `std::toupper` are modelled in the "C" locale. A `std::string` holds bytes, while the model's strings hold characters, so a non-ASCII character in a path gives one `_` in the model where the source gives one per byte of its encoding.
- Scanner.ParseLines: the line and `GENERATED_BODY()` counters are unbounded naturals. A `size_t` wrap needs 2^64 lines, so it is not modelled. The brace counter's wrap is modelled.
- Scanner.ParseLines: a block closed by a line is parsed after the whole line is scanned. The source parses it before its `GENERATED_BODY()` test, but that test cannot fire once the block has closed, so the records and the error are the same.
- Glue.CreateGeneratedFile and Metadata.CreateGenFile: the source's inner loops live in helper methods (`AppendClassExports`, `AppendPropertyEvents`, `AppendClassEvents`). The order in which text and events are appended is unchanged.
- Tool.HeaderTool.ParseFiles: the file system is a value passed in and returned, not state updated in place.
- Tool.RunFiles, Tool.HeaderTool.ParseFiles: entries are selected with the corrected test `IsHeaderEntry` (see Findings). A non-regular entry with extension `.hpp`, such as a directory `Menu.hpp`, is handed to `ParseHeaderFile` by src/HeaderTool.cpp:30 but skipped by the model, so what the source writes for such an entry is not modelled.

## Findings

| source | as written | input that shows it | evidently intended | confidence | as-written member | corrected member |
|---|---|---|---|---|---|---|
| src/HeaderTool.cpp:30 | `entry.is_regular_file() && ext == ".h" \|\| ext == ".hpp"` groups as `(regular && .h) \|\| .hpp`, so a `.hpp` entry is taken even when it is not a regular file | a directory `Menu.hpp` | only regular files with extension `.h` or `.hpp` | not executed | Tool.SelectedAsWritten, Tool.DirectoryNamedHppSelected | Tool.IsHeaderEntry, Tool.SelectionDiffers |
