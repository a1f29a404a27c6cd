# spirv-webgpu-transform in Dafny

This project models the core of spirv-webgpu-transform, a library that
rewrites SPIR-V modules so that WebGPU translators accept them. A module
is a flat stream of 32-bit words: a five-word header (magic number at
word 0, id bound at word 3) followed by instructions whose first word
packs the word count in its high half and the opcode in its low half
(section 2.3 of the SPIR-V specification). The model covers:

- the word primitives (`hiword`, `loword`, `encode_word`), the byte/word
  conversions and the literal-string packing;
- the three-stage edit engine: `insert_new_instructions` (sorted,
  bottom-up splices after anchor instructions and word-count bumps),
  `prune_noops` (erasing `OpNop` instructions) and `fuse_final`
  (rewriting the bound and putting the header back);
- id allocation (`inc`) and the `ensure_*` helpers that intern a type or
  an extended instruction set import, or allocate a fresh id and append
  its declaration to a header buffer;
- `trace_previous_intermediate_id`, which finds the last instruction
  before an offset that defines a given id;
- the correction map and `mirrorpatch`, which reconciles the corrections
  of two modules by cloning decorated `OpVariable`s on the side that
  lacks them (`push_affected_decorations`, `patch_spv_decorations`);
- the skeleton of the isnan/isinf pass (header check, scan, the path that
  returns the module untouched, edit/prune/fuse) and its two generators
  (`nan_inf_shared`, `is_nan_is_inf_spv`), together with the bit test
  the helper performs;
- the generators of the cube-direction helpers and the face rule and
  per-face coordinates they compute.

Words are integers below 2^32 (`Words.Word`), streams are `seq<Word>`,
and `Stream.WellFormed` says that the chain of word counts, every count
nonzero, ends exactly at the end of the stream. A loop of the source is
a `method` with its invariants, proved against a function that states
the result; a function of the source that only builds a value is a
function. The id bound that the source threads through `&mut u32` is an
in/out value. The generators' instruction lists are transcribed word for
word, declared word counts included, and lemmas then relate each list to
the stream it should be. `Layout.LaidOut` states the operand order that
section 2.3 asks of an instruction with a result type and a result id.
Where the source emits something other than it evidently intends (see
"## Findings"), the members that model it emit what is written, and a
separate corrected definition carries the intended property.

## Model

| member | source | states |
|---|---|---|
| Words.EncodeWord | src/util.rs:23-25 | the high half of the packed word is the count and the low half the opcode |
| Words.EncodeOfHalves | src/util.rs:15-25 | every 32-bit word is the packing of its own high and low halves |
| Words.LittleEndian | src/lib.rs:64-79 | a word built from four bytes has the first byte as its least significant and the last as its most significant |
| Words.BytesOfWord | src/lib.rs:82-93 | splitting a word built from four bytes gives back those bytes in order |
| Words.U8SliceToU32Vec | src/lib.rs:64-79 | on a byte length that is a multiple of 4 (the source panics otherwise), one word per four bytes, each from its own four bytes, little-endian |
| Words.U32SliceToU8Vec | src/lib.rs:82-93 | exactly four little-endian bytes per word |
| Words.WordsBytesWords | src/lib.rs:64-93 | bytes of words read back as words give the words back, for every word sequence |
| Words.BytesWordsBytes | src/lib.rs:64-93 | words of bytes read back as bytes give the bytes back, when the length is a multiple of 4 |
| Words.U8SliceAppend | src/lib.rs:64-79 | the conversion to words distributes over concatenation of whole words |
| Words.U32SliceAppend | src/lib.rs:82-93 | the conversion to bytes distributes over concatenation |
| Literal.PackLiteral | src/util.rs:37-50 | a string of n bytes packs into ceil(n/4) words |
| Literal.StringToLiteralLe | src/util.rs:37-50 | the loop that packs four bytes per word, padding the last with zeros, yields the packed literal |
| Literal.PackLiteralBytes | src/util.rs:37-50 | the bytes of the packed words are the string followed by zero padding to a multiple of 4 |
| Literal.PackLiteralIsU8Slice | src/util.rs:37-50 | packing a string is the byte-to-word conversion of the padded string |
| Literal.LiteralToStringLe | src/util.rs:28-36 | the loop over words yields the decoded literal: the bytes of the words when they are valid UTF-8, an error otherwise |
| Literal.LiteralRoundTrip | src/util.rs:28-50 | decoding the packing of valid UTF-8 gives the padded string back, and the string itself when its length is a multiple of 4 |
| Literal.GlslStd450Literal | src/util.rs:122-129 | "GLSL.std.450" packs to [1280527431, 1685353262, 808793134], which decodes back to it |
| Literal.MissingNul | src/util.rs:37-50 | as written, the packing of a 12-byte name has no NUL byte at all |
| Literal.StringToLiteralTerminated | src/util.rs:37-50 | the corrected packing loop yields the NUL-terminated literal |
| Literal.PackTerminatedNul | src/util.rs:37-50 | the corrected literal holds the string, then at least one NUL byte, and only NUL bytes after the string |
| Literal.PackTerminatedRoundTrip | src/util.rs:28-50 | decoding the corrected literal of valid UTF-8 gives the string, a NUL and the padding |
| Literal.GlslStd450Terminated | src/util.rs:122-129 | the corrected literal of "GLSL.std.450" is the tested three words and a zero word |
| Ids.Inc | src/isnanisinfpatch.rs:3-6 | returns the bound before the increment and advances it by exactly 1 |
| Ids.Run | src/isnanisinfpatch.rs:3-6 | n successive `inc` calls hand out n consecutive ids from the bound |
| Ids.AllocRun | src/isnanisinfpatch.rs:3-6 | n `inc` calls return the run of n consecutive ids from the bound and leave the bound n higher |
| Ensure.FindOperands | src/util/ensure.rs:76-82 | the first scanned declaration whose two operands match, and none exactly when no scanned one matches |
| Ensure.EnsureWithOperands | src/util/ensure.rs:68-150 | a match returns its result id and leaves bound and header unchanged; otherwise the old bound is the id, the bound grows by 1 and exactly the new 4-word declaration is appended; the id is below the new bound whenever the scanned ids are below the old one |
| Ensure.EnsureTypeInt | src/util/ensure.rs:68-94 | as above for `OpTypeInt` (width, signedness) |
| Ensure.EnsureTypeVector | src/util/ensure.rs:96-123 | as above for `OpTypeVector` (component type, count) |
| Ensure.EnsureTypePointer | src/util/ensure.rs:125-150 | as above for `OpTypePointer` (storage class, pointee type) |
| Ensure.EnsureTypeIntTwice | src/util/ensure.rs:76-93 | two calls with the same unseen template allocate two distinct ids and append two declarations: there is no idempotence |
| Ensure.EnsureTypeBool | src/util/ensure.rs:49-66 | the first scanned `OpTypeBool`'s id when there is one; otherwise a fresh id and one 2-word declaration |
| Ensure.FindImportFirst | src/util/ensure.rs:29-34 | the import found is the first scanned one whose name decodes and passes the filter, and none means none does |
| Ensure.DeclareImport | src/util/ensure.rs:36-46 | a fresh id and one import instruction: the count 2 plus the packed name's words, the id, then the name packed by `string_to_literal_le`, with no NUL word added |
| Ensure.GlslImportDeclared | src/util/ensure.rs:36-46 | the import declared for "GLSL.std.450" is the 5-word instruction [count 5 and opcode, id, 1280527431, 1685353262, 808793134], whose name has no NUL byte |
| Ensure.EnsureExtInstImport | src/util/ensure.rs:21-47 | the first matching import's id with header and bound unchanged, or a fresh id and the appended import declaring the name as `string_to_literal_le` packs it |
| Ensure.LastOfIndices | src/util/ensure.rs:3-19 | the maximum of all the lists' indices, and none exactly when every list is empty |
| Ensure.InConcat | src/util/ensure.rs:3-19 | an index is among the chained lists exactly when it is in one of them |
| Pointer.TraceNone | src/util/pointer.rs:16-35 | the trace finds nothing exactly when no instruction start before the limit defines the id |
| Pointer.TraceSome | src/util/pointer.rs:16-35 | a found index is a start before the limit, defines the id (count above 2, word 2 is the id), and no later start before the limit does |
| Pointer.TracePreviousIntermediateId | src/util/pointer.rs:16-35 | the walking loop returns none exactly when no start before the offset defines the id, and otherwise the last one that does, with its result type from word 1 |
| Pointer.WalkStarts | src/util/pointer.rs:24-32 | on a well-formed stream the walk ends and visits exactly instruction starts |
| Correction.Code | src/correction.rs:3-13 | every correction tag has a code below 3 that decodes back to it |
| Correction.FromCode | src/correction.rs:3-13 | exactly the codes 0, 1 and 2 decode to a tag |
| AffectedDecorations.WrapAdd | src/mirrorpatch.rs:279-280 | adding to the bound one step at a time with 32-bit wrap-around is adding the total once |
| AffectedDecorations.FindStanding | src/mirrorpatch.rs:267-270 | the loop finds the first entry not yet cancelled that equals the tag |
| AffectedDecorations.PushAffectedDecorations | src/mirrorpatch.rs:251-291 | appends exactly the affected entries and advances the bound by their number, modulo 2^32 |
| AffectedDecorations.CancelShape | src/mirrorpatch.rs:259-274 | cancelling keeps every position and only strikes entries |
| AffectedDecorations.CancelCount | src/mirrorpatch.rs:259-274 | per tag, cancelling removes as many entries as the right side has, down to zero |
| AffectedDecorations.CancelMultiset | src/mirrorpatch.rs:259-274 | what remains is the multiset difference of left and right |
| AffectedDecorations.RemainingStanding | src/mirrorpatch.rs:259-274 | before any cancellation every entry stands |
| AffectedDecorations.StandingAtIncreasing | src/mirrorpatch.rs:276-290 | the uncancelled entries are emitted in their original order |
| AffectedDecorations.EmittedShape | src/mirrorpatch.rs:276-290 | one new variable per uncancelled entry, with its tag and a fresh id from the bound |
| AffectedDecorations.EmittedBinding | src/mirrorpatch.rs:276-290 | each emitted binding is the entry's set and binding, offset by the entries cancelled before it |
| AffectedDecorations.StruckBefore | src/mirrorpatch.rs:276-290 | the number cancelled before the j-th uncancelled entry is its position minus j |
| AffectedDecorations.AffectedKinds | src/mirrorpatch.rs:251-291 | the emitted tags are, as a multiset, the left tags minus the right tags |
| AffectedDecorations.AffectedEmpty | src/mirrorpatch.rs:338-340 | nothing is emitted exactly when the left tags are contained in the right ones |
| AffectedDecorations.AffectedIds | src/mirrorpatch.rs:279-280 | the new ids are consecutive from the bound and, when nothing wraps, below the new bound |
| AffectedDecorations.AffectedOrigin | src/mirrorpatch.rs:276-290 | every emitted entry is an uncancelled left entry with its set, binding and offset |
| AffectedDecorations.PushExample | src/mirrorpatch.rs:293-336 | l = [SC, DR, DR, SC, DC], r = [DR, DC] gives (binding 0, SC), (binding 1, DR), (binding 1, SC) |
| AffectedDecorations.PushExampleSwapped | src/mirrorpatch.rs:338-340 | with the sides swapped, nothing is emitted |
| SetVisits.DedupAdjacent | src/mirrorpatch.rs:41 | `Vec::dedup` keeps the first key and every key, and leaves no two equal neighbours |
| SetVisits.DedupRevisits | src/mirrorpatch.rs:35-43 | when both maps hold sets 0 and 1, the deduplicated chain of keys still lists a set twice |
| SetVisits.DedupFour | src/mirrorpatch.rs:35-43 | any chain of two two-key lists over {0, 1} keeps a repeated set after `dedup` |
| SetVisits.UniqueInOrder | src/mirrorpatch.rs:35-43 | the corrected visit list holds every key of the chain exactly once |
| Mirrorpatch.Visits | src/mirrorpatch.rs:35-43 | the sets visited are the keys of the left map then the right one with adjacent repeats dropped: no two neighbours are equal and a set is visited exactly when one of the two orders lists it, though a set can come back later |
| Mirrorpatch.VisitsKeys | src/mirrorpatch.rs:35-43 | a set is visited exactly when one of the two maps has it |
| Mirrorpatch.MissingSetAddsNothing | src/mirrorpatch.rs:44-58 | a set this side lacks reads as the default empty bindings and gives the other side no new variable |
| Mirrorpatch.MissingBindingMirrorsAll | src/mirrorpatch.rs:56-68 | a binding the other side lacks reads as the default one with no corrections: every correction of this side's binding becomes a new variable, counted with repetition |
| Mirrorpatch.BindingsAffectedIds | src/mirrorpatch.rs:55-85 | the new variables of one set are numbered consecutively from the bound |
| Mirrorpatch.SideAffectedIds | src/mirrorpatch.rs:43-86 | the new variables of one side are numbered consecutively from that side's bound |
| Mirrorpatch.RightAffectedIds | src/mirrorpatch.rs:43-86 | the right side's new ids run from its bound |
| Mirrorpatch.LeftAffectedIds | src/mirrorpatch.rs:43-86 | the left side's new ids run from its bound |
| Mirrorpatch.AffectedCovered | src/mirrorpatch.rs:55-85 | one binding yields no new variable exactly when the other side already has each of its corrections, counted with repetition |
| Mirrorpatch.BindingsAffectedEmpty | src/mirrorpatch.rs:55-85 | one set's bindings yield no new variable exactly when every walked binding is covered |
| Mirrorpatch.SideAffectedEmpty | src/mirrorpatch.rs:43-86 | a side gains no new variable exactly when every visited set is covered |
| Mirrorpatch.CoveredByKeys | src/mirrorpatch.rs:43-86 | walking the listed keys of a set's bindings covers exactly the bindings of that set |
| Mirrorpatch.ListedMirrored | src/mirrorpatch.rs:43-86 | when the visits include every set and the binding order lists every binding, covering what is walked is covering the whole map |
| Mirrorpatch.RightAffectedEmpty | src/mirrorpatch.rs:88-107 | the right side gets no new variable exactly when every left correction is already on the right |
| Mirrorpatch.LeftAffectedEmpty | src/mirrorpatch.rs:88-107 | the left side gets no new variable exactly when every right correction is already on the left |
| Mirrorpatch.PushBindings | src/mirrorpatch.rs:55-85 | the loop over one set's bindings pushes exactly that set's new variables and advances the bound |
| Mirrorpatch.PushSet | src/mirrorpatch.rs:44-85 | one visited set contributes its left-to-right and right-to-left new variables |
| Mirrorpatch.CollectAffected | src/mirrorpatch.rs:26-86 | the loop over the visited sets, absent maps read as empty, collects exactly each side's affected list and final bound, walking the visits as `dedup` leaves them |
| Mirrorpatch.PatchIfAffected | src/mirrorpatch.rs:88-107 | a side is patched, with the new bound, exactly when its affected list is non-empty, and left as none otherwise |
| Mirrorpatch.Mirrorpatch | src/mirrorpatch.rs:10-109 | with no corrections on either side the result is (none, none) and nothing changes; otherwise each side is patched exactly for the corrections it lacks |
| PatchDecorations.ScanDecoratesAndVariables | src/mirrorpatch.rs:138-155 | the loop records the offsets of every `OpDecorate` and every `OpVariable` in walk order |
| PatchDecorations.FindDecoratedFirst | src/mirrorpatch.rs:174-192 | the variable found is the first whose decorations name the set and the binding, and none means none does |
| PatchDecorations.FindVariableNone | src/mirrorpatch.rs:193-196 | no `OpVariable` is found exactly when none defines the id |
| PatchDecorations.OriginalVariableDecorated | src/mirrorpatch.rs:170-199 | the original variable defines an id decorated with the set and the binding |
| PatchDecorations.VariableInsertCopies | src/mirrorpatch.rs:201-212 | the copy is the original `OpVariable` word for word except word 2, the new id, and is anchored on the original |
| PatchDecorations.NewVariables | src/mirrorpatch.rs:159-221 | the loop queues exactly one copy and one conversion per new variable, in order |
| PatchDecorations.PatchSpvDecorations | src/mirrorpatch.rs:119-249 | the header keeps every word but the bound, which becomes the new bound, and the body is the decorated, spliced, renumbered and pruned stream |
| EditEngine.SortByKeySorted | src/util.rs:70-73 | the sort orders the inserts by anchor |
| EditEngine.SortByKeyPermutes | src/util.rs:70-73 | the sort is a permutation of the inserts |
| EditEngine.SortByKeyStable | src/util.rs:70-73 | inserts sharing an anchor keep their list order |
| EditEngine.PlaceMonotone | src/util.rs:82-89 | the splice offsets follow the sorted order of the anchors |
| EditEngine.ScheduleFits | src/util.rs:52-92 | when every anchor is an instruction start and no word insert lands in an anchored instruction, the sorted inserts can be applied from last to first |
| EditEngine.InsertWords | src/util.rs:84-89 | the words are spliced in at the offset |
| EditEngine.ApplyInsert | src/util.rs:74-90 | applying one more insert, in front of those already applied, gives the stream with that insert too |
| EditEngine.ApplyWordInsert | src/util.rs:75-81 | a word insert puts its word after its offset and raises the count of its head instruction by one |
| EditEngine.ApplyInstructionInsert | src/util.rs:82-90 | an instruction insert lands right after its anchor instruction, at the anchor plus its original count |
| EditEngine.InsertNewInstructions | src/util.rs:52-92 | the loop yields the stream with every word insert's head raised once and every insert's words spliced at its place |
| EditEngine.MergeOriginal | src/util.rs:52-92 | every original word survives, shifted by the words spliced in front of it |
| EditEngine.MergeContent | src/util.rs:82-89 | every insert's words appear intact, at its place shifted by the inserts before it |
| EditEngine.ContentsInOrder | src/util.rs:82-89 | inserts appear in their sorted order and do not overlap |
| EditEngine.InsertedLength | src/util.rs:52-92 | the output's length is the input's plus the total weight of the inserts |
| EditEngine.ScheduledWeight | src/util.rs:52-92 | that weight is one per word insert plus the words of every instruction insert |
| EditEngine.BumpedAt | src/util.rs:75-81 | a word's count is raised once per word insert whose head it is |
| EditEngine.ScheduledHeadCount | src/util.rs:75-81 | only word inserts raise counts, each its own head's |
| EditEngine.HeadsRaised | src/util.rs:75-81 | in the output, each original word, shifted, carries its count raised by the number of word inserts headed there, opcode unchanged |
| Finish.RemoveRun | src/util.rs:102-104 | removing a run of words keeps exactly the words before and after it |
| Finish.PruneNoops | src/util.rs:94-109 | the loop yields the stream with every `OpNop` instruction erased |
| Finish.PrunedInstructions | src/util.rs:94-109 | on a well-formed stream, pruning keeps exactly the non-`OpNop` instructions, in order |
| Finish.PrunedWellFormed | src/util.rs:94-109 | the pruned stream is well-formed and holds no `OpNop` |
| Finish.NopFreeUnchanged | src/util.rs:94-109 | a well-formed stream without `OpNop` comes back unchanged |
| Finish.PrunedIdempotent | src/util.rs:94-109 | pruning twice is pruning once |
| Finish.FuseFinal | src/util.rs:111-120 | the header with only its bound slot replaced, then the body |
| Scan.ScanFromSelects | src/isnanisinfpatch.rs:43-60 | the scan records exactly the instruction starts with the opcode, in increasing order |
| IsNanIsInfPatch.AllCollectedStep | src/isnanisinfpatch.rs:43-60 | one step of the walk records the instruction under its opcode's list only |
| IsNanIsInfPatch.ScanIsNanIsInf | src/isnanisinfpatch.rs:35-60 | the loop records, for each of the six opcodes, its instruction starts in walk order |
| IsNanIsInfPatch.UsesNanOrInfFound | src/isnanisinfpatch.rs:62-64 | the scan finds `OpIsNan` or `OpIsInf` exactly when an instruction of the body has one of them |
| IsNanIsInfPatch.IsNanIsInfPass | src/isnanisinfpatch.rs:18-85 | a body without `OpIsNan`/`OpIsInf` returns the input unchanged; otherwise the same header, bound unchanged, and the body with `OpNop`s erased |
| IsNanIsInfPatch.PassKeepsCleanModule | src/isnanisinfpatch.rs:78-84 | on a clean well-formed body the second path gives the input back too |
| NanInfShared.SharedDeclared | src/isnanisinfpatch/shared.rs:38-49 | five instructions of twenty words declaring their own lengths: the function type and the constants 23, 255, 8388607 and 0, with the fresh id and the uint type in either order |
| NanInfShared.SharedAsWrittenMisplaced | src/isnanisinfpatch/shared.rs:41-48 | as written, every constant puts its fresh id in the type slot, and none is laid out as section 2.3 says |
| NanInfShared.SharedLaidOut | src/isnanisinfpatch/shared.rs:41-48 | with the id in the result slot, all five are laid out as section 2.3 says |
| NanInfShared.NanInfSharedSpv | src/isnanisinfpatch/shared.rs:20-61 | five consecutive fresh ids, returned in declaration order, and a well-formed 20-word stream as written: the function type, then each constant as (fresh id, uint type, value), none of them laid out as section 2.3 says when the uint type precedes the bound |
| IsNanIsInfHelper.HelperAsWrittenCounts | src/isnanisinfpatch/isnan_isinf.rs:101-152 | as written, 23 instructions whose declared counts are their lengths, a well-formed stream |
| IsNanIsInfHelper.KindsDifferInOneWord | src/isnanisinfpatch/isnan_isinf.rs:140-145 | the two variants as written differ only in the comparison's first word: `OpIEqual` for IsNan, `OpINotEqual` for IsInf |
| IsNanIsInfHelper.HelperAsWrittenMisplaced | src/isnanisinfpatch/isnan_isinf.rs:101-152 | as written, only the header, label, stores, return and end are laid out; every other instruction puts a fresh id in the type slot |
| IsNanIsInfHelper.HelperCounts | src/isnanisinfpatch/isnan_isinf.rs:101-152 | the corrected helper is 23 instructions that a walk cuts back out of its well-formed stream |
| IsNanIsInfHelper.HelperLaidOut | src/isnanisinfpatch/isnan_isinf.rs:101-152 | every instruction of the corrected helper is laid out as section 2.3 says |
| IsNanIsInfHelper.KindsDifferInOneWordLaidOut | src/isnanisinfpatch/isnan_isinf.rs:140-145 | the corrected variants still differ only in the comparison's opcode |
| IsNanIsInfHelper.HelperAsWrittenSwapped | src/isnanisinfpatch/isnan_isinf.rs:116-148 | as written, the IsNan helper answers true exactly on infinities and the IsInf helper exactly on NaNs |
| IsNanIsInfHelper.AsWrittenMissesQuietNaN | src/isnanisinfpatch/isnan_isinf.rs:140-145 | the quiet NaN 0x7FC00000 is rejected by the IsNan helper as written |
| IsNanIsInfHelper.HelperClassifies | src/isnanisinfpatch/isnan_isinf.rs:116-148 | shifting by 23 and masking with 255 and 8388607, the constants `nan_inf_shared` declares, and with the corrected comparison, IsNan holds exactly on NaNs and IsInf exactly on infinities, as section 3.4 of IEEE 754-2019 classifies binary32 |
| IsNanIsInfHelper.IsNanIsInfSpv | src/isnanisinfpatch/isnan_isinf.rs:3-155 | eighteen consecutive fresh ids, the first being the function, and the helper as written: a well-formed stream of 23 instructions opened by that `OpFunction`, comparing with `OpIEqual` for IsNan and `OpINotEqual` for IsInf, of which only 7 are laid out as section 2.3 says |
| CubeDirectionToAxis.FnTypeEmitted | src/storagecubepatch/cube_direction_to_axis.rs:31-43 | one 4-word `OpTypeFunction` declaring its length, laid out when its types precede the id |
| CubeDirectionToAxis.CubeDirectionFnType | src/storagecubepatch/cube_direction_to_axis.rs:31-43 | one fresh id in a well-formed 4-word stream that defines it |
| CubeDirectionToAxis.ConstantsDeclared | src/storagecubepatch/cube_direction_to_axis.rs:45-112 | ten 4-word constants: uint 0, 1, 2, float 0 and int 0 to 5, each declaring its record field |
| CubeDirectionToAxis.ConstantsLaidOut | src/storagecubepatch/cube_direction_to_axis.rs:74-95 | the ten constants are laid out as section 2.3 says |
| CubeDirectionToAxis.CubeDirectionConstants | src/storagecubepatch/cube_direction_to_axis.rs:45-112 | ten consecutive fresh ids and a well-formed 40-word stream declaring them |
| CubeDirectionToAxis.AxisCounts | src/storagecubepatch/cube_direction_to_axis.rs:264-396 | every instruction declares its own length exactly when the `OpExtInst` count is 6 |
| CubeDirectionToAxis.AxisAsWrittenMiscounts | src/storagecubepatch/cube_direction_to_axis.rs:275 | as written, the `OpExtInst` declares 7 words and has 6 |
| CubeDirectionToAxis.AxisAsWrittenBreaksWalk | src/storagecubepatch/cube_direction_to_axis.rs:264-396 | as written, a walk by word count over the emitted words goes astray: the stream is not well-formed |
| CubeDirectionToAxis.AxisCorrected | src/storagecubepatch/cube_direction_to_axis.rs:264-396 | with the count corrected, the helper is a well-formed stream cut back into exactly its instructions |
| CubeDirectionToAxis.AxisExits | src/storagecubepatch/cube_direction_to_axis.rs:325-395 | each face branch ends in `OpReturnValue` and both merge blocks hold only `OpUnreachable` |
| CubeDirectionToAxis.CubeDirectionToAxisSpv | src/storagecubepatch/cube_direction_to_axis.rs:114-399 | fifty consecutive fresh ids, the first being the function, and the helper as written, opened by that `OpFunction`: with the `OpExtInst` declaring 7 words, the stream is not well-formed |
| CubeDirectionToAxis.AxisFace | src/storagecubepatch/cube_direction_to_axis.rs:287-388 | the face is always in 0..5 |
| CubeDirectionToAxis.AxisFaceMajor | src/storagecubepatch/cube_direction_to_axis.rs:287-388 | the face's axis is the first of largest magnitude, the only such one, and the even face goes to a positive component |
| ImageCubeDirectionToArrayed.ArrayedFnType | src/storagecubepatch/image_cube_direction_to_arrayed.rs:28-40 | one fresh id in a well-formed 4-word `OpTypeFunction` (v3int from a pointer to v3int), laid out when its types precede it |
| ImageCubeDirectionToArrayed.ConstantsDeclared | src/storagecubepatch/image_cube_direction_to_arrayed.rs:42-87 | six 4-word constants declaring int 0 to 5 as named, laid out as section 2.3 says |
| ImageCubeDirectionToArrayed.ArrayedConstants | src/storagecubepatch/image_cube_direction_to_arrayed.rs:42-87 | six consecutive fresh ids and a well-formed 24-word stream declaring them |
| ImageCubeDirectionToArrayed.ArrayedCounts | src/storagecubepatch/image_cube_direction_to_arrayed.rs:476-892 | every instruction declares its own length; the stream opens with the `OpFunction` defining the first fresh id |
| ImageCubeDirectionToArrayed.ImageCubeDirectionToArrayedSpv | src/storagecubepatch/image_cube_direction_to_arrayed.rs:89-895 | 137 consecutive fresh ids, the first being the function, in a well-formed stream that opens with its `OpFunction` |
| ImageCubeDirectionToArrayed.ArrayedFace | src/storagecubepatch/image_cube_direction_to_arrayed.rs:516-665 | the face is always in 0..5 |
| ImageCubeDirectionToArrayed.ArrayedFaceAgrees | src/storagecubepatch/image_cube_direction_to_arrayed.rs:516-665 | despite the strict y test, the face is the axis helper's face: the first axis of largest magnitude |
| ImageCubeDirectionToArrayed.ArrayedRoundTrip | src/storagecubepatch/image_cube_direction_to_arrayed.rs:667-888 | the per-face (s, t) loses only the major component's magnitude: with it, the direction comes back |
| ImageCubeDirectionToArrayed.ArrayedOnFace | src/storagecubepatch/image_cube_direction_to_arrayed.rs:667-888 | s and t never exceed the major component in magnitude |

## Left out

- The foreign interface (ffi/src/lib.rs, ffi/spirv_webgpu_transform.h, ffi/bin/spv_webgpu_transform.c) is not part of this model: it only marshals pointers and does file I/O.
- The tests in src/test/test_mirrorpatch.rs need binary fixtures and an outside translator; they are not part of this model.
- The driver in src/storagecubepatch.rs is unwritten (`todo!()`) and its `inc` is the one modelled by `Ids.Inc`; the two cube generator files are modelled on their own.
- src/isnanisinfpatch/isnan.rs is an earlier draft that no module declares; it is not part of this model.
- Opcode, decoration and storage-class values come from the SPIR-V specification, since the constants module of the source is not part of this model.
- `util::decorate` and `util::correct_decorate` are not part of this model: `PatchDecorations.PatchSpvDecorations` takes them as function parameters, constrained only by how the source uses their results.
- Mirrorpatch.Mirrorpatch: the source returns a `Result`, but no path produces its error (`patch_spv_decorations` always returns `Ok`); the model returns the outputs directly.
- The iteration order of the source's `HashMap`s is unspecified; the model takes it as a parameter (`setOrder`, `bindingOrder`) and states only facts that hold for any order.
- `str::from_utf8` is modelled as UTF-8 well-formedness per RFC 3629; the decoded `String` is kept as its bytes.
- Ids.Inc: the source's `u32` increment would overflow at 2^32 - 1 (a panic in debug builds); the model requires the bound to be below it.
- Panics (`assert_eq!` on the magic number, out-of-range indexing, `unwrap`) are preconditions, not behaviour.
- Floating point is left out: the face rule and the per-face coordinates are stated over integers, so NaN directions, signed zeros and the float `OpFOrdGreaterThan` comparisons are not modelled, nor the wrap of `SAbs` on the most negative integer.
- CubeDirectionToAxis.AxisFace: the face rule is transcribed from the branch structure of the emitted blocks, not computed from their words.
- CubeDirectionToAxis.AxisCounts: the words of the middle blocks are transcribed but only their counts and terminators are checked, not their operands' meaning.
- CubeDirectionToAxis.CubeDirectionToAxisSpv: the operand layout of the helper's body is not checked against section 2.3, only word counts (which, as written, break the walk); the same holds for ImageCubeDirectionToArrayed.ImageCubeDirectionToArrayedSpv.
- IsNanIsInfHelper.IsNanIsInfSpv: the input records of the generator are defined nowhere in the source; their fields are taken from the way the body reads them.
- EditEngine.ScheduleFits: an instruction insert anchored on the head instruction of a word insert is excluded, because the source takes the anchor's length before the word is added and would splice inside the grown instruction; no caller in the source queues such a pair.
- IsNanIsInfPatch.IsNanIsInfPass: the steps between the scan and the edit engine are unwritten in the source, so the pass queues no insert and allocates no id; nothing more is modelled.

## Findings

| source | as written | input that shows it | evidently intended | confidence | as-written member | corrected member |
|---|---|---|---|---|---|---|
| src/storagecubepatch/cube_direction_to_axis.rs:275 | the `OpExtInst` declares 7 words but emits 6 | any call: the walk lands on the next instruction's second word | a declared count of 6 | not executed | CubeDirectionToAxis.AxisAsWrittenBreaksWalk | CubeDirectionToAxis.AxisCorrected |
| src/isnanisinfpatch/shared.rs:41-48 | each `OpConstant` is emitted as (id, type, value) | any call: word 1 holds the fresh id, word 2 the uint type | (type, id, value), per section 2.3 of the SPIR-V specification | not executed | NanInfShared.SharedAsWrittenMisplaced | NanInfShared.SharedLaidOut |
| src/isnanisinfpatch/isnan_isinf.rs:104-148 | result ids precede result types and `OpVariable` has no storage class | any call: only 7 of 23 instructions are laid out | the section 2.3 layout used by image_cube_direction_to_arrayed.rs | not executed | IsNanIsInfHelper.HelperAsWrittenMisplaced | IsNanIsInfHelper.HelperLaidOut |
| src/isnanisinfpatch/isnan_isinf.rs:140-145 | IsNan compares the fraction with `OpIEqual`, IsInf with `OpINotEqual` | the quiet NaN 0x7FC00000: IsNan answers false | IsNan with `OpINotEqual`, IsInf with `OpIEqual`, per section 3.4 of IEEE 754-2019 | not executed | IsNanIsInfHelper.AsWrittenMissesQuietNaN | IsNanIsInfHelper.HelperClassifies |
| src/mirrorpatch.rs:41 | `Vec::dedup` removes only adjacent duplicate set keys | both maps holding sets 0 and 1: the chain [0, 1, 0, 1] or one of its orders keeps a repeat | every set visited once | not executed | SetVisits.DedupRevisits | SetVisits.UniqueInOrder |
| src/util.rs:37-50 | no NUL word is added when the byte length is a multiple of 4 | "GLSL.std.450" (12 bytes) packs to three words with no NUL | a NUL-terminated literal, per section 2.2.1 of the SPIR-V specification | not executed | Literal.MissingNul | Literal.PackTerminatedNul |
