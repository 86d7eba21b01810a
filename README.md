# Nugget LLVM passes: a Dafny model

Nugget's LLVM plugin takes a program through three module passes. Each pass is given its options through the
`-passes=` pipeline string.

* **`IRBBLabelPass`** gives every basic block of every eligible function an id. Ids are module-wide:
  0, 1, 2, … in function-then-block order. The id is stored as the decimal string of a `bb.id` metadata
  node on the block's terminator. The pass also keeps one `BasicBlockInfo` record per block and writes the
  records out as a CSV file.
* **`PhaseAnalysisPass`** reads those ids back. It inserts `nugget_bb_hook(size, id, threshold)` before every
  labelled terminator. At the end of `nugget_roi_begin_` it adds `nugget_init(total)`, where `total` is the
  number of hooks inserted.
* **`PhaseBoundPass`** matches a work list of two or three markers (start, end and, optionally, warmup)
  against the ids. Each marker's block gets one action before its terminator: a hook call, or an inline-asm
  label in label-only mode. The traversal stops once the list is empty, and fails if a marker is never
  found. `nugget_init(warmup count, start count, end count)` is added first.

A function is *eligible* when it has a body and is not one of the runtime's own helpers. The helpers'
names form the denylist `nugget_functions`.

The option grammar is shared by all three passes (`MatchParamPass` and `ParseOptions`). A pipeline element is
either the bare pass name, or `name<key=value;…>` checked against an ordered schema. In the schema, an empty
default marks a required option.

The model is in Dafny 4.11, in these modules:

| module | file | what it holds |
|---|---|---|
| `Wrappers` | wrappers.dfy | `Option`; `Result`, which plays the part of `Expected<T>` |
| `Strings` | strings.dfy | the `StringRef` operations the parser uses: `trim`, `split`, `starts_with` |
| `Decimal` | decimal.dfy | `std::to_string`, `std::stoll` and `std::stoull`, with both of the exceptions they throw |
| `PassOptions` | options.dfy | pass/common.hh: the schemas, `ParseOptions` (three loop methods) and `MatchParamPass` |
| `Ir` | ir.dfy | functions, blocks, instructions and terminator metadata; id reading; `instrumentRoiBegin`; the `IRModule` class the passes change in place |
| `BBLabel` | bb_label.dfy | `IRBBLabelPass` as a class with the `bb_info_list_` field; specification functions `Labelled` and `Records`; the CSV text |
| `PhaseAnalysis` | phase_analysis.dfy | `PhaseAnalysisPass` as a class; the specification function `Hooked` |
| `PhaseBound` | phase_bound.dfy | `PhaseBoundPass` as a class; the specification functions `MarkBlock`, `MarkBlocks` and `MarkFunctions` |
| `Pipeline` | pipeline.dfy | the passes run one after another: what the labeler writes is what the instrumentors read |
| `Registration` | registration.dfy | the pipeline-parsing callback of pass/PluginRegistration.cpp |

The passes work by changing the module step by step, so they are methods on an `IRModule` whose `functions`
field they reassign one block at a time. The loops are the source's loops, and each loop has invariants
against a specification function of the old state:

* `Labelled` and `Records` for the labeler;
* `Hooked` for the interval instrumentation;
* `MarkFunctions` for the marker traversal.

The properties the source promises are then lemmas about those functions. Examples:

* ids are consecutive and unique;
* `stoll(to_string(n)) == n`;
* instrumentation only reads the ids;
* the hook count equals the number of CSV rows;
* a traversal finds all markers exactly when the module carries their ids;
* each marker is acted on at most once.

pass/PhaseAnalysisPass.cpp:3-84 duplicates src/PhaseAnalysisPass.cpp:33-120, minus two debug prints. The
same members model both copies; the rows below cite the src/ copy.

Three points where the model keeps to the code's exact behaviour:

* `label_only` is read by `PhaseBoundPass::run` but is in neither schema, so a pass built by
  `MatchParamPass` always reads it as empty. The mode is therefore a parameter.
* `run` converts all six options with `stoull` before anything else, the warmup ones included, even when
  warmup ends up disabled. The first conversion that throws ends the run.
* The ids are compared as 64-bit values. An `int64_t` id is compared with a `uint64_t` marker id after
  conversion to unsigned.

## Model

| member | source | states |
|---|---|---|
| `Decimal.ToDecimal` | pass/IRBBLabelPass.cpp:86-87 | `std::to_string` of an id is a non-empty string of decimal digits with no leading zero |
| `Decimal.DigitsValueOfDecimal` | pass/IRBBLabelPass.cpp:86-87 | the digits written for `n` spell `n` |
| `Decimal.ToDecimalInjective` | pass/IRBBLabelPass.cpp:77-88 | distinct ids get distinct annotation strings, and equal strings mean equal ids |
| `Decimal.DigitPrefix` | src/PhaseAnalysisPass.cpp:73 | the run of digits `stoll` consumes is the longest digit prefix: the character after it is not a digit |
| `Decimal.Stoll` | src/PhaseAnalysisPass.cpp:73 | a successful `stoll` always returns a value in the `int64_t` range |
| `Decimal.StollNeedsDigits` | src/PhaseAnalysisPass.cpp:73 | text that starts with no digit, sign or white space makes `stoll` throw |
| `Decimal.StollOfDecimal` | src/PhaseAnalysisPass.cpp:73 | the identity contract between the passes: `stoll(to_string(n)) == n` for every `n` up to `INT64_MAX` |
| `Decimal.StoullOfDecimal` | src/PhaseBoundPass.cpp:221-232 | `stoull(to_string(n)) == n` for every 64-bit `n` |
| `Decimal.StoullNegative` | src/PhaseAnalysisPass.cpp:100-101 | `stoull("-n")` does not throw; it wraps to `2^64 - n` |
| `Strings.TrimShape` | pass/common.hh:58-64 | `trim` keeps the contiguous middle of its input, neither starting nor ending in white space, and drops only white space |
| `Strings.TrimIdempotent` | pass/common.hh:58-64 | trimming twice is trimming once |
| `Strings.TrimEmptyIff` | pass/common.hh:58-60 | an item is skipped as empty exactly when it is all white space |
| `Strings.SplitFirst` | pass/common.hh:62 | `split('=')` gives the text before the first `=` (free of `=`) and the rest, or the whole text and `""` |
| `Strings.SplitAll` | pass/common.hh:52-53 | every piece of a split is free of the separator, and there is at least one piece |
| `Strings.JoinSplit` | pass/common.hh:52-53 | joining the pieces of a split with the separator gives the original text back |
| `Strings.SplitJoin` | pass/common.hh:52-53 | splitting pieces that were joined gives the pieces back |
| `Strings.SplitNonEmpty` | pass/common.hh:52-53 | the items kept by `split(…, KeepEmpty=false)` are non-empty and free of `;` |
| `Strings.NonEmptyMembers` | pass/common.hh:53 | every kept piece is a non-empty piece of the input, and every non-empty piece is kept |
| `Strings.NonEmptySingle` | pass/common.hh:53 | a single piece is kept exactly when it is not empty |
| `Strings.NonEmptyAppend` | pass/common.hh:53 | filtering a concatenation is the concatenation of the filtered parts, so the kept pieces stay in text order, repeats included |
| `PassOptions.FindName` | pass/common.hh:70-79 | an option is found exactly when the schema has one of that name, and the one found is the first of that name |
| `PassOptions.FindOption` | pass/common.hh:70-79 | the search loop over `ReturnOptions` returns the first option with the key |
| `PassOptions.ClassifyShape` | pass/common.hh:58-68 | an item is blank exactly when it trims to nothing; a non-blank item split at its first `=` is malformed (`invalid option: <item>`, with its trimmed text) exactly when the trimmed key or the trimmed value is empty; otherwise it is the entry of the trimmed key, free of `=`, and the trimmed value |
| `PassOptions.ApplyOptionItems` | pass/common.hh:55-83 | the item loop returns what the closed-form item function gives for the classified items |
| `PassOptions.FirstUnset` | pass/common.hh:86-91 | locates the first option without a value, every one before it being set |
| `PassOptions.RequireAll` | pass/common.hh:86-91 | succeeds exactly when every option is set, and then returns the options unchanged; otherwise names the first unset option |
| `PassOptions.CheckRequired` | pass/common.hh:86-91 | the required-option loop agrees with `RequireAll` |
| `PassOptions.ParseOptions` | pass/common.hh:49-95 | the method equals `Parsed`: split, classify, apply, check |
| `PassOptions.Assigned` | pass/common.hh:71-78 | the schema with each option's last given value keeps the schema's names in order |
| `PassOptions.ApplyItemsClosedForm` | pass/common.hh:57-83 | the item loop fails with the first malformed item or unknown key; otherwise every option takes the last value given for it |
| `PassOptions.ParsedClosedForm` | pass/common.hh:49-95 | item errors are reported before any required-option check; otherwise the assigned schema is checked for unset options |
| `PassOptions.LastMentionWins` | pass/common.hh:71-78 | when a key is given twice, the last item naming it decides its value |
| `PassOptions.UnmentionedKeepsValue` | pass/common.hh:55 | an option no item names keeps its default |
| `PassOptions.ParsedSuccess` | pass/common.hh:85-94 | a successful parse has exactly the schema's names, in schema order, all set |
| `PassOptions.ParsedErrors` | pass/common.hh:66-90 | `ParseOptions` only fails with invalid-option, unknown-option or missing-required-option |
| `PassOptions.BareName` | pass/common.hh:100-108 | the bare name returns the schema unchanged when every default is set, else names the first required option |
| `PassOptions.BareLabelPassAccepted` | pass/IRBBLabelPass.hh:5-7 | bare `ir-bb-label-pass` is accepted with the default `output_csv=bb_info.csv` |
| `PassOptions.BarePhaseBoundRejected` | src/PhaseBoundPass.hh:36-52 | the bare phase-bound pass is rejected for its first required option, `warmup_marker_bb_id` |
| `PassOptions.BarePhaseAnalysisRejected` | pass/PhaseAnalysisPass.hh:36-38 | the bare phase-analysis pass is rejected: `interval_length` is required |
| `PassOptions.NameNotMatchedIff` | pass/common.hh:109-111 | "name not matched" is returned exactly for names that do not start with the pass name: both directions |
| `PassOptions.MalformedIff` | pass/common.hh:112-117 | "malformed parameterized pass name" is returned exactly when the name starts with the pass name, differs from it, and is not `base<…>` with a non-empty body: both directions |
| `PassOptions.BracketedBody` | pass/common.hh:118-120 | `base<p>` parses exactly the body `p`; `base<>` is malformed |
| `PassOptions.MatchSuccessAllSet` | pass/common.hh:98-121 | whatever `MatchParamPass` accepts has the schema's names in order, with every value non-empty |
| `Ir.SetBbId` | pass/IRBBLabelPass.cpp:82-88 | `setMetadata` keeps the block's name, size, terminator and every instruction before it, and attaches the decimal id to a terminated block; a block with no terminator is unchanged |
| `Ir.SetBbIdOnlyAnnotation` | pass/IRBBLabelPass.cpp:86-88 | only the `bb.id` entry of the terminator changes: the opcode and the other metadata are kept |
| `Ir.SetBbIdReadBack` | src/PhaseAnalysisPass.cpp:57-73 | the id written on a terminator is read back unchanged and parses |
| `Ir.InsertBeforeTerminator` | src/PhaseAnalysisPass.cpp:80-86 | `SetInsertPoint(T)` + create puts exactly the new instruction immediately before the unchanged terminator; the rest of the block and its annotation are kept |
| `Ir.InsertCallCount` | src/PhaseAnalysisPass.cpp:80-87 | an insertion adds one call to a callee exactly when the inserted instruction is a call to it |
| `Ir.BlockIdsCongruent` | src/PhaseAnalysisPass.cpp:54-73 | block lists that agree block by block on their ids have the same id list |
| `Ir.ModuleIdsCongruent` | src/PhaseAnalysisPass.cpp:45-73 | a transformation that keeps every block's id keeps the module's id list in traversal order |
| `Ir.FindFunction` | src/PhaseAnalysisPass.cpp:36-40 | `getFunction` fails exactly when no function has the name; otherwise it finds the first function with it |
| `Ir.InsertInit` | src/PhaseAnalysisPass.cpp:116 | adding the init call keeps every block's id |
| `Ir.InsertInitShape` | src/PhaseBoundPass.cpp:245-256 | the init call goes before the terminator of the last block of `nugget_roi_begin_`, and nothing else changes |
| `Ir.InsertInitParses` | src/PhaseBoundPass.cpp:254-269 | after the init call, every annotation still parses |
| `Ir.IRModule.InstrumentRoiBegin` | src/PhaseAnalysisPass.cpp:116-118 | succeeds exactly when `nugget_roi_begin_` is present with a terminated last block, and then adds the call; otherwise the module is unchanged |
| `BBLabel.IRBBLabelPass.constructor` | pass/IRBBLabelPass.hh:16-18 | the pass holds its options and an empty record list |
| `BBLabel.IRBBLabelPass.Run` | pass/IRBBLabelPass.cpp:54-114 | completes exactly when every visited block has a terminator, and then leaves the module equal to `Labelled` and the record list equal to `Records`; otherwise it stops with the block's and function's names at the first visited block without a terminator |
| `BBLabel.IRBBLabelPass.LabelFunctionAt` | pass/IRBBLabelPass.cpp:63-114 | one function: skipped when it is a declaration or denied; otherwise numbered from the global counter, one record per block, and counted |
| `BBLabel.IRBBLabelPass.LabelFunctionBlocks` | pass/IRBBLabelPass.cpp:75-111 | the block loop numbers the blocks `base, base+1, …` on their terminators and appends their records in order, or stops at the first block without a terminator |
| `BBLabel.IRBBLabelPass.WriteCsv` | pass/IRBBLabelPass.cpp:126-138 | the export loop writes the header line, then one row per record in list order |
| `BBLabel.PrefixStep` | pass/IRBBLabelPass.cpp:63-114 | one more function advances the function counter by 1 and the block counter by its block count when it is eligible, appends its records and labels it from the block count so far |
| `BBLabel.AllTerminatedIff` | pass/IRBBLabelPass.cpp:83-95 | "every visited block has a terminator" is the same as "no fatal error anywhere in the traversal" |
| `BBLabel.RecordsCount` | pass/IRBBLabelPass.cpp:97-110 | one record per labelled block |
| `BBLabel.RecordIdsConsecutive` | pass/IRBBLabelPass.cpp:77-108 | the `k`-th record has id `k`: ids are 0, 1, 2, … in record order, hence unique and increasing |
| `BBLabel.RecordOfBlock` | pass/IRBBLabelPass.cpp:97-110 | block `j` of processed function `i` has the record at its own id, holding its function's name, the count of functions before it, its name and its size |
| `BBLabel.LabelledAt` | pass/IRBBLabelPass.cpp:63-114 | function `i` is numbered from the count of visited blocks before it, or left alone when skipped |
| `BBLabel.LabelledShape` | pass/IRBBLabelPass.cpp:79-88 | labelling changes only terminator metadata: the same functions and blocks, with the same names, sizes and instructions before the terminator; skipped functions are untouched |
| `BBLabel.LabelledEligible` | pass/IRBBLabelPass.cpp:64-72 | labelling keeps which functions the later passes visit |
| `BBLabel.LabelBlocksIds` | pass/IRBBLabelPass.cpp:75-88 | terminated blocks numbered from `base` read back as `base, …, base + n - 1` |
| `BBLabel.LabelledIds` | pass/IRBBLabelPass.cpp:63-114 | on a well-formed module the ids read back in traversal order are exactly `0 … N-1` |
| `BBLabel.LabelledBlock` | pass/IRBBLabelPass.cpp:75-88 | block `j` of processed function `i` is the original block with id equal to its position in the traversal |
| `BBLabel.LabelledParses` | src/PhaseAnalysisPass.cpp:73 | every annotation the labeler writes is one `stoll` accepts |
| `BBLabel.RecordMatchesAnnotation` | pass/IRBBLabelPass.cpp:86-108 | the id in a block's CSV record is the one its terminator holds |
| `BBLabel.DecimalPlain` | pass/IRBBLabelPass.cpp:131-138 | a number field holds neither comma nor newline |
| `BBLabel.RowIsJoin` | pass/IRBBLabelPass.cpp:132-137 | a row is the five fields in column order, joined by commas |
| `BBLabel.RowFields` | pass/IRBBLabelPass.cpp:132-137 | when names hold no comma, splitting a row at commas gives the record's five fields back |
| `BBLabel.RowOneLine` | pass/IRBBLabelPass.cpp:132-137 | when names hold no newline, a row is one line |
| `BBLabel.FieldsDecode` | pass/IRBBLabelPass.cpp:132-137 | the numeric fields read back as the record's numbers |
| `BBLabel.RowsTextIsJoin` | pass/IRBBLabelPass.cpp:131-138 | the data part is the rows joined by newlines, with a final newline |
| `BBLabel.RowLines` | pass/IRBBLabelPass.cpp:126-138 | after the header line, the file splits into one line per record in list order |
| `PhaseAnalysis.IdCountIsIds` | src/PhaseAnalysisPass.cpp:87 | the running total counts the ids read, function by function |
| `PhaseAnalysis.PhaseAnalysisPass.constructor` | pass/PhaseAnalysisPass.hh:47-50 | the pass holds its options |
| `PhaseAnalysis.PhaseAnalysisPass.InstrumentAllIRBasicBlocks` | src/PhaseAnalysisPass.cpp:33-91 | fails exactly when `nugget_bb_hook` is missing, before touching anything; otherwise leaves the module equal to `Hooked`, and `total` is the number of ids read |
| `PhaseAnalysis.PhaseAnalysisPass.HookFunctionAt` | src/PhaseAnalysisPass.cpp:45-53 | one function: skipped when it is a declaration or denied, otherwise its blocks hooked; returns how many ids it read |
| `PhaseAnalysis.PhaseAnalysisPass.HookFunctionBlocks` | src/PhaseAnalysisPass.cpp:54-88 | the block loop hooks each annotated block, skips the others, and counts the hooks |
| `PhaseAnalysis.PhaseAnalysisPass.Run` | src/PhaseAnalysisPass.cpp:93-120 | error order: `stoull(interval_length)` throwing, then the missing bb hook (module untouched), then the missing roi-begin; on success the module is `Hooked` plus `nugget_init(total)` |
| `PhaseAnalysis.HookBlockShape` | src/PhaseAnalysisPass.cpp:55-86 | an annotated block gets exactly one new instruction, `nugget_bb_hook(size before, id, threshold)`, immediately before its unchanged terminator; any other block is untouched, and the annotation is only read |
| `PhaseAnalysis.HookedAt` | src/PhaseAnalysisPass.cpp:45-54 | block `j` of function `i` is hooked when the function is eligible, and untouched otherwise |
| `PhaseAnalysis.HookedKeepsIds` | src/PhaseAnalysisPass.cpp:59-73 | instrumentation keeps every block's id in place, so the id list is unchanged |
| `PhaseAnalysis.HookBlocksCallCount` | src/PhaseAnalysisPass.cpp:82-87 | a function's hook calls grow by its number of annotated blocks |
| `PhaseAnalysis.HookedCallCount` | src/PhaseAnalysisPass.cpp:82-87 | the module's hook calls grow by exactly the number of ids read: `total` counts the calls inserted |
| `PhaseAnalysis.HookedBlockCall` | src/PhaseAnalysisPass.cpp:80-86 | an annotated block of an eligible function ends with the hook carrying its own size and id and the common threshold, then its terminator |
| `PhaseBound.ActionInjective` | src/PhaseBoundPass.cpp:39-56 | different roles get different hooks and different labels |
| `PhaseBound.InitialPending` | src/PhaseBoundPass.cpp:58-66 | the work list has 2 entries, or 3 with warmup; start and end are always in it; warmup is in it exactly when enabled; each entry carries its role's id |
| `PhaseBound.InitialPendingDistinct` | src/PhaseBoundPass.cpp:58-66 | no role is listed twice, and no id either when the enabled ids differ |
| `PhaseBound.UnmatchedMembers` | src/PhaseBoundPass.cpp:107-115 | `remove_if` keeps exactly the entries whose id is not the block's |
| `PhaseBound.MatchedMembers` | src/PhaseBoundPass.cpp:102-103 | the matched entries are exactly those whose id is seen |
| `PhaseBound.FirstWithId` | src/PhaseBoundPass.cpp:102-103 | finds the first pending entry with the block's id, or none exists |
| `PhaseBound.Ids64Members` | src/PhaseBoundPass.cpp:103 | every id is converted, in place, to its 64-bit unsigned value before the comparison, so a value is among the converted ids exactly when some id converts to it |
| `PhaseBound.ConvertAll` | src/PhaseBoundPass.cpp:221-232 | the six `stoull` conversions in order: all succeed with their values, or the first that throws is named, with every one before it succeeding |
| `PhaseBound.PhaseBoundPass.constructor` | src/PhaseBoundPass.hh:56-59 | the pass holds its options |
| `PhaseBound.PhaseBoundPass.Traverse` | src/PhaseBoundPass.cpp:68-129 | the traversal leaves the module equal to `MarkFunctions`, and succeeds exactly when the work list ran out |
| `PhaseBound.PhaseBoundPass.MarkFunctionBlocks` | src/PhaseBoundPass.cpp:80-122 | the block loop equals `MarkBlocks` for the function, and stops once nothing is pending |
| `PhaseBound.PhaseBoundPass.MarkOneBlock` | src/PhaseBoundPass.cpp:81-116 | one block: read the id, act on the first matching entry and drop all entries with that id |
| `PhaseBound.PhaseBoundPass.FindMarker` | src/PhaseBoundPass.cpp:102-103 | the scan finds the first entry with the id |
| `PhaseBound.PhaseBoundPass.InstrumentMarkerBBs` | src/PhaseBoundPass.cpp:33-130 | fails untouched when a needed hook is missing (warmup only when enabled); otherwise calls each marker's hook at its block and reports whether every marker was found |
| `PhaseBound.PhaseBoundPass.LabelMarkerBBs` | src/PhaseBoundPass.cpp:133-215 | puts each marker's side-effecting asm label (`~{memory}`) at its block, and reports whether every marker was found |
| `PhaseBound.PhaseBoundPass.Run` | src/PhaseBoundPass.cpp:217-273 | error order: the first option whose `stoull` throws, then the missing roi-begin (module untouched), then the marker traversal in the given mode; warmup is disabled exactly when its count is 0; `nugget_init` gets warmup, start and end counts in every mode |
| `PhaseBound.MarkBlocksEmpty` | src/PhaseBoundPass.cpp:119-125 | with nothing pending, the traversal changes nothing |
| `PhaseBound.MarkBlocksStopped` | src/PhaseBoundPass.cpp:119-121 | stopping the block loop once the list is empty is the same as going on |
| `PhaseBound.MarkBlocksFinished` | src/PhaseBoundPass.cpp:80-121 | where the block loop leaves off, the rest of the blocks stay as they are |
| `PhaseBound.MarkFunctionsStopped` | src/PhaseBoundPass.cpp:123-125 | stopping the function loop once the list is empty is the same as going on |
| `PhaseBound.UnmatchedKeepsAll` | src/PhaseBoundPass.cpp:107-115 | `remove_if` with an id nobody has keeps the list |
| `PhaseBound.UnmatchedAppend` | src/PhaseBoundPass.cpp:107-115 | removing the ids of one block and then the next equals removing both |
| `PhaseBound.MarkBlocksPending` | src/PhaseBoundPass.cpp:80-117 | after a block list, what is pending is the entries whose id none of the blocks carries |
| `PhaseBound.MarkFunctionsPending` | src/PhaseBoundPass.cpp:72-126 | after the module, what is pending is the entries whose id no visited block carries |
| `PhaseBound.AllFoundIff` | src/PhaseBoundPass.cpp:119-129 | the traversal succeeds exactly when every entry's id is carried by a visited block: both directions |
| `PhaseBound.MarkersFoundIff` | src/PhaseBoundPass.cpp:58-129 | for the list the pass builds: all markers are found exactly when the module carries the start id, the end id and, with warmup enabled, the warmup id |
| `PhaseBound.MarkBlockShape` | src/PhaseBoundPass.cpp:81-116 | a block whose id someone waits for gets exactly the first such entry's action, immediately before its unchanged terminator, and the entries with that id leave the list; any other block, and the list, are untouched; the annotation is only read |
| `PhaseBound.MarkBlocksKeepIds` | src/PhaseBoundPass.cpp:83-106 | marking keeps every block's id |
| `PhaseBound.MarkFunctionsKeepIds` | src/PhaseBoundPass.cpp:72-126 | the marked module carries the same ids in the same places |
| `PhaseBound.MarkBlockInsts` | src/PhaseBoundPass.cpp:102-116 | with distinct ids, a block gains exactly the actions of the entries its id matches |
| `PhaseBound.MarkBlocksInsts` | src/PhaseBoundPass.cpp:80-121 | with distinct ids, a block list gains exactly one action per matched entry |
| `PhaseBound.MarkFunctionsInsts` | src/PhaseBoundPass.cpp:72-126 | with distinct ids, the marked module holds exactly the original instructions plus one action per entry whose id it carries |
| `PhaseBound.ActionsOfRole` | src/PhaseBoundPass.cpp:58-66 | with distinct roles, a role's action is among the matched actions once when its entry matched, never otherwise |
| `PhaseBound.MarkerActedOnce` | src/PhaseBoundPass.cpp:58-129 | with distinct enabled ids, the module gains one copy of a role's action exactly when the role is enabled and a visited block carries its id, and none otherwise |
| `Pipeline.LabelledThenHooked` | src/PhaseAnalysisPass.cpp:45-118 | on a labelled module the instrumentor's precondition holds; the ids it reads are `0 … N-1` for the N CSV records; it inserts exactly N hook calls, so `nugget_init` gets the number of CSV rows |
| `Pipeline.HookCarriesRecordId` | src/PhaseAnalysisPass.cpp:82-86 | the hook at each processed block carries the id in that block's CSV record and the block's size before the call |
| `Pipeline.LabelledThenBounded` | src/PhaseBoundPass.cpp:72-129 | on a labelled module with N blocks, the markers are all found exactly when the start id, the end id and the warmup id (if enabled) are below N |
| `Registration.CallbackAsWritten` | pass/PluginRegistration.cpp:84-104 | adds the pass exactly when `MatchParamPass` succeeds; reports only errors whose message does not contain "name not matched" |
| `Registration.OneMalformedItem` | pass/common.hh:57-68 | a body free of `;` and `=` and not padded with white space is one malformed item, reported as "invalid option: `body`" |
| `Registration.SilencedParseError` | pass/PluginRegistration.cpp:99-104 | `ir-bb-label-pass<name not matched>` matches the pass name and fails to parse, yet the callback stays silent |
| `Registration.Callback` | pass/PluginRegistration.cpp:84-107 | corrected callback: adds on success; reports every error except `NameNotMatched`, with the fixed prefix |
| `Registration.CallbackDeclinedIff` | pass/PluginRegistration.cpp:96-107 | the corrected callback is silent exactly for names that do not start with `ir-bb-label-pass`, and reports every failure of a name that does |
| `Registration.CallbacksAgree` | pass/PluginRegistration.cpp:99-104 | the two callbacks differ exactly on parse errors, other than a name mismatch, whose message contains "name not matched" |

## Left out

- File output: opening the CSV file, the fatal error when it cannot be opened, and the stream I/O. `WriteCsv` returns the text the loop writes.
- The `errs()` warnings and the `DEBUG_PRINT` output. These do not change the module.
- `GetOptionValue` is not part of this model. `OptionValue` gives the value of the first option with the name, or `""` when there is none.
- The body of `instrumentRoiBegin` is not part of this model. `InstrumentRoiBegin` takes its effect from its call sites: the first function named `nugget_roi_begin_` must have a body whose last block ends in a terminator, and the call goes before that terminator.
- The list `nugget_functions` is not part of this model. It is the parameter `deny`.
- `report_fatal_error` aborts the process; here it is a `Fatal(message)` status. An exception from `stoull` on an option is an `Uncaught(option)` status.
- `BBLabel.IRBBLabelPass.Run`: the `uint64_t` counters are unbounded integers. Wrap-around after 2^64 blocks is not modelled. Ids are read back only up to `INT64_MAX`, which every lemma about reading ids requires.
- PhaseAnalysis and PhaseBound: the instrumentors require `IdsParse`. Every `bb.id` string they read must be one `stoll` accepts; the source throws on any other. Labelled modules meet this (`BBLabel.LabelledParses`).
- `PhaseBound.MarkerActedOnce` and the instruction-count lemmas require distinct enabled ids. The source erases from the marker vector inside a range-for over it, which reads past the vector's new end after an erase. With distinct ids those reads compare only ids that differ from the block's. With two markers sharing an id, the result depends on the stale elements it reads, which is undefined behaviour. The model acts on the first entry and drops every entry with that id.
- The debug-only `assert(total >= 1)` of `PhaseAnalysisPass::run` and the `bb_id != -1` asserts are left out: they are compiled out under `NDEBUG`.
- The `label_only` option is in neither schema, so `PhaseBoundPass::run` reads it as `""` whenever the pass comes from `MatchParamPass`. The mode is a parameter of `Run` instead.
- The stale three-argument declaration of `instrumentMarkerBBs` in the headers is left out.
- `PreservedAnalyses`, the LLVM context, `IRBuilder`, the plugin entry point and the pass manager are left out.
- PluginRegistration is modelled only in its parse-error decision.
- The Python and C test programs are left out.
- A `bb.id` metadata node always has exactly one operand here (`MDOperand`: a string or something else). A node without operands cannot be represented. On such a node, `getOperand(0)` at src/PhaseAnalysisPass.cpp:68 and src/PhaseBoundPass.cpp:92 and 173 would be out of range.
- Instructions other than terminators, hook calls and inline asm are opaque opcodes. Only the last instruction of a block can be a terminator. The entry block's empty name is an ordinary string.

## Findings

| source | as written | input that shows it | evidently intended | confidence | as-written member | corrected member |
|---|---|---|---|---|---|---|
| pass/PluginRegistration.cpp:99-104 | an error is silenced whenever its message contains the text "name not matched" | the pipeline element `ir-bb-label-pass<name not matched>`: the body is one malformed item, so `MatchParamPass` fails with "invalid option: name not matched" and nothing is reported | stay silent only when the name is not this pass's (`NameNotMatched`, that is, the name does not start with `ir-bb-label-pass`) | not executed | `Registration.CallbackAsWritten`, `Registration.SilencedParseError` | `Registration.Callback`, `Registration.CallbackDeclinedIff` |
