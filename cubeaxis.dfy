/** The generators of src/storagecubepatch/cube_direction_to_axis.rs: the
    function type and the constants of a helper that maps a direction to
    the index of the cube face it points at, and the helper itself. Each
    generator takes its fresh ids from the bound by a run of `inc` calls and
    emits a literal list of instructions built from those ids and the ids
    it is given; the lists are transcribed here as written, word counts
    included, with `ids` the run of fresh ids in the order of the `inc`
    calls. `AxisFace` states the face rule the helper's branches compute. */
module CubeDirectionToAxis {
  import opened Words
  import opened Spv
  import opened Stream
  import opened Layout
  import opened Ids

  /** The type ids the helper uses, declared by the caller. */
  datatype TypeInputs = TypeInputs(intId: Word, v3floatId: Word, floatId: Word, boolId: Word,
                                   ptrV3floatId: Word, ptrFloatId: Word, glslStd: Word)

  /** The ids of the ten constants `CubeDirectionConstants` declares. */
  datatype Constants = Constants(uint0: Word, uint1: Word, uint2: Word, float0: Word,
                                 int0: Word, int1: Word, int2: Word, int3: Word, int4: Word, int5: Word)

  /** `%_function_type = OpTypeFunction %int %_ptr_Function_v3float`. */
  function FnTypeWords(ty: TypeInputs, functionType: Word): seq<seq<Word>>
  {
    [[EncodeWord(4, OP_TYPE_FUNCTION), functionType, ty.intId, ty.ptrV3floatId]]
  }

  /** One instruction of four words that declares its own length and,
      when the two types it names were declared before the fresh id,
      defines that id as section 2.3 of the SPIR-V specification says. */
  lemma FnTypeEmitted(ty: TypeInputs, functionType: Word)
    ensures AllProper(FnTypeWords(ty, functionType))
    ensures |Flatten(FnTypeWords(ty, functionType))| == 4
    ensures ty.intId < functionType && ty.ptrV3floatId < functionType ==>
              AllLaidOut(FnTypeWords(ty, functionType), functionType)
  {
    var r := FnTypeWords(ty, functionType);
    assert Flatten(r) == r[0] + Flatten(r[1..]);
  }

  /** `cube_direction_fn_type`: one fresh id, the function type, in a
      well-formed stream of four words whose result slot holds that id. */
  method CubeDirectionFnType(ib: Word, ty: TypeInputs) returns (functionType: Word, spv: seq<Word>, newIb: Word)
    requires ib < MAX_WORD
    ensures functionType == ib && newIb == ib + 1
    ensures spv == Flatten(FnTypeWords(ty, functionType))
    ensures |spv| == 4 && WellFormed(spv) && spv[1] == functionType
  {
    functionType, newIb := Inc(ib);
    var r := FnTypeWords(ty, functionType);
    spv := Flatten(r);
    FnTypeEmitted(ty, functionType);
    EmittedWellFormed(r);
    assert spv == r[0] + Flatten(r[1..]);
  }

  /** Ten `OpConstant` instructions, their ids the fresh run `ids`. */
  function ConstantsWords(uintId: Word, floatId: Word, intId: Word, ids: seq<Word>): seq<seq<Word>>
    requires |ids| == 10
  {
    [
      [EncodeWord(4, OP_CONSTANT), uintId, ids[0], 0],
      [EncodeWord(4, OP_CONSTANT), uintId, ids[1], 1],
      [EncodeWord(4, OP_CONSTANT), uintId, ids[2], 2],
      [EncodeWord(4, OP_CONSTANT), floatId, ids[3], 0],
      [EncodeWord(4, OP_CONSTANT), intId, ids[4], 0],
      [EncodeWord(4, OP_CONSTANT), intId, ids[5], 1],
      [EncodeWord(4, OP_CONSTANT), intId, ids[6], 2],
      [EncodeWord(4, OP_CONSTANT), intId, ids[7], 3],
      [EncodeWord(4, OP_CONSTANT), intId, ids[8], 4],
      [EncodeWord(4, OP_CONSTANT), intId, ids[9], 5]
    ]
  }

  /** The record `cube_direction_constants` returns: the fresh ids in the
      order uint 0, 1, 2, float 0, int 0 to 5. */
  function ConstantsOf(ids: seq<Word>): Constants
    requires |ids| == 10
  {
    Constants(ids[0], ids[1], ids[2], ids[3], ids[4], ids[5], ids[6], ids[7], ids[8], ids[9])
  }

  /** Each id of the record is declared as the constant its name says, by
      an instruction that declares its own length. */
  lemma ConstantsDeclared(uintId: Word, floatId: Word, intId: Word, ids: seq<Word>)
    requires |ids| == 10
    ensures var r := ConstantsWords(uintId, floatId, intId, ids);
            var c := ConstantsOf(ids);
      |r| == 10 && AllProper(r) &&
      DeclaresConstant(r[0], uintId, c.uint0, 0) && DeclaresConstant(r[1], uintId, c.uint1, 1) &&
      DeclaresConstant(r[2], uintId, c.uint2, 2) && DeclaresConstant(r[3], floatId, c.float0, 0) &&
      DeclaresConstant(r[4], intId, c.int0, 0) && DeclaresConstant(r[5], intId, c.int1, 1) &&
      DeclaresConstant(r[6], intId, c.int2, 2) && DeclaresConstant(r[7], intId, c.int3, 3) &&
      DeclaresConstant(r[8], intId, c.int4, 4) && DeclaresConstant(r[9], intId, c.int5, 5)
  {
  }

  /** With the fresh run starting at `ib` and the three types declared
      below it, the constants are laid out as section 2.3 says. */
  lemma ConstantsLaidOut(uintId: Word, floatId: Word, intId: Word, ib: Word, ids: seq<Word>)
    requires |ids| == 10 && ids == Run(ib, 10)
    requires uintId < ib && floatId < ib && intId < ib
    ensures AllLaidOut(ConstantsWords(uintId, floatId, intId, ids), ib)
  {
  }

  /** `cube_direction_constants`: ten fresh ids and the instructions
      declaring them, forty words in a well-formed stream. */
  method CubeDirectionConstants(ib: Word, uintId: Word, floatId: Word, intId: Word)
    returns (c: Constants, spv: seq<Word>, newIb: Word)
    requires ib + 10 <= MAX_WORD
    ensures c == ConstantsOf(Run(ib, 10)) && newIb == ib + 10
    ensures spv == Flatten(ConstantsWords(uintId, floatId, intId, Run(ib, 10)))
    ensures WellFormed(spv) && |spv| == 40
  {
    var ids;
    ids, newIb := AllocRun(ib, 10);
    c := ConstantsOf(ids);
    var r := ConstantsWords(uintId, floatId, intId, ids);
    spv := Flatten(r);
    ConstantsDeclared(uintId, floatId, intId, ids);
    EmittedWellFormed(r);
    FlattenLength(r, 4);
  }

  /** The helper allocates fifty ids: the function, its parameter, the
      labels and every intermediate result. */
  const AXIS_IDS: nat := 50

  /** The word count written for the `OpExtInst` computing the absolute
      value: 7, for an instruction of 6 words. */
  const EXT_INST_COUNT_AS_WRITTEN: HalfWord := 7

  /** The count that instruction needs. */
  const EXT_INST_COUNT: HalfWord := 6

  // The helper, block by block. The entry block comes with the function
  // header; the GLSL.std.450 instruction number is written as the literal
  // 4 (FAbs); the `OpExtInst` count is left open.

  function Entry(extInstCount: HalfWord, ty: TypeInputs, c: Constants, functionType: Word, ids: seq<Word>): (r: seq<seq<Word>>)
    requires |ids| == AXIS_IDS
    ensures |r| == 14 && AllProper(r[..5]) && AllProper(r[6..])
    ensures |r[5]| == 6 && HiWord(r[5][0]) == extInstCount
    ensures BlockEnds(r[2..])
  {
    var cubemapFn := ids[0];
    var r := ids[1];
    var label13 := ids[2];
    var a := ids[3];
    var res15 := ids[4];
    var res16 := ids[5];
    var res21 := ids[6];
    var res22 := ids[7];
    var res24 := ids[8];
    var res25 := ids[9];
    var res26 := ids[10];
    var label27 := ids[11];
    var label28 := ids[12];
    [
      [EncodeWord(5, OP_FUNCTION), ty.intId, cubemapFn, FUNCTION_CONTROL_INLINE, functionType],
      [EncodeWord(3, OP_FUNCTION_PARAMETER), ty.ptrV3floatId, r],
      [EncodeWord(2, OP_LABEL), label13],
      [EncodeWord(4, OP_VARIABLE), ty.ptrV3floatId, a, STORAGE_CLASS_FUNCTION],
      [EncodeWord(4, OP_LOAD), ty.v3floatId, res15, r],
      [EncodeWord(extInstCount, OP_EXT_INST), ty.v3floatId, res16, ty.glslStd, 4, res15],
      [EncodeWord(3, OP_STORE), a, res16],
      [EncodeWord(5, OP_ACCESS_CHAIN), ty.ptrFloatId, res21, a, c.uint0],
      [EncodeWord(4, OP_LOAD), ty.floatId, res22, res21],
      [EncodeWord(5, OP_ACCESS_CHAIN), ty.ptrFloatId, res24, a, c.uint1],
      [EncodeWord(4, OP_LOAD), ty.floatId, res25, res24],
      [EncodeWord(5, OP_F_ORD_GREATER_THAN_EQUAL), ty.boolId, res26, res22, res25],
      [EncodeWord(3, OP_SELECTION_MERGE), label28, SELECTION_CONTROL_NONE],
      [EncodeWord(4, OP_BRANCH_CONDITIONAL), res26, label27, label28]
    ]
  }

  function Block27(ty: TypeInputs, c: Constants, functionType: Word, ids: seq<Word>): (r: seq<seq<Word>>)
    requires |ids| == AXIS_IDS
    ensures AllProper(r) && BlockEnds(r)
  {
    var a := ids[3];
    var label27 := ids[11];
    var label28 := ids[12];
    var res29 := ids[13];
    var res30 := ids[14];
    var res32 := ids[15];
    var res33 := ids[16];
    var res34 := ids[17];
    [
      [EncodeWord(2, OP_LABEL), label27],
      [EncodeWord(5, OP_ACCESS_CHAIN), ty.ptrFloatId, res29, a, c.uint0],
      [EncodeWord(4, OP_LOAD), ty.floatId, res30, res29],
      [EncodeWord(5, OP_ACCESS_CHAIN), ty.ptrFloatId, res32, a, c.uint2],
      [EncodeWord(4, OP_LOAD), ty.floatId, res33, res32],
      [EncodeWord(5, OP_F_ORD_GREATER_THAN_EQUAL), ty.boolId, res34, res30, res33],
      [EncodeWord(2, OP_BRANCH), label28]
    ]
  }

  function Block28(ty: TypeInputs, c: Constants, functionType: Word, ids: seq<Word>): (r: seq<seq<Word>>)
    requires |ids| == AXIS_IDS
    ensures AllProper(r) && BlockEnds(r)
  {
    var label13 := ids[2];
    var res26 := ids[10];
    var label27 := ids[11];
    var label28 := ids[12];
    var res34 := ids[17];
    var res35 := ids[18];
    var label36 := ids[19];
    var label37 := ids[20];
    var label46 := ids[25];
    [
      [EncodeWord(2, OP_LABEL), label28],
      [EncodeWord(7, OP_PHI), ty.boolId, res35, res26, label13, res34, label27],
      [EncodeWord(3, OP_SELECTION_MERGE), label37, SELECTION_CONTROL_NONE],
      [EncodeWord(4, OP_BRANCH_CONDITIONAL), res35, label36, label46]
    ]
  }

  function Block36(ty: TypeInputs, c: Constants, functionType: Word, ids: seq<Word>): (r: seq<seq<Word>>)
    requires |ids| == AXIS_IDS
    ensures AllProper(r) && BlockEnds(r)
  {
    var r := ids[1];
    var label36 := ids[19];
    var res38 := ids[21];
    var res39 := ids[22];
    var res41 := ids[23];
    var res44 := ids[24];
    [
      [EncodeWord(2, OP_LABEL), label36],
      [EncodeWord(5, OP_ACCESS_CHAIN), ty.ptrFloatId, res38, r, c.uint0],
      [EncodeWord(4, OP_LOAD), ty.floatId, res39, res38],
      [EncodeWord(5, OP_F_ORD_GREATER_THAN), ty.boolId, res41, res39, c.float0],
      [EncodeWord(6, OP_SELECT), ty.intId, res44, res41, c.int0, c.int1],
      [EncodeWord(2, OP_RETURN_VALUE), res44]
    ]
  }

  function Block46(ty: TypeInputs, c: Constants, functionType: Word, ids: seq<Word>): (r: seq<seq<Word>>)
    requires |ids| == AXIS_IDS
    ensures AllProper(r) && BlockEnds(r)
  {
    var a := ids[3];
    var label46 := ids[25];
    var res47 := ids[26];
    var res48 := ids[27];
    var res49 := ids[28];
    var res50 := ids[29];
    var res51 := ids[30];
    var label52 := ids[31];
    var label53 := ids[32];
    [
      [EncodeWord(2, OP_LABEL), label46],
      [EncodeWord(5, OP_ACCESS_CHAIN), ty.ptrFloatId, res47, a, c.uint1],
      [EncodeWord(4, OP_LOAD), ty.floatId, res48, res47],
      [EncodeWord(5, OP_ACCESS_CHAIN), ty.ptrFloatId, res49, a, c.uint0],
      [EncodeWord(4, OP_LOAD), ty.floatId, res50, res49],
      [EncodeWord(5, OP_F_ORD_GREATER_THAN_EQUAL), ty.boolId, res51, res48, res50],
      [EncodeWord(3, OP_SELECTION_MERGE), label53, SELECTION_CONTROL_NONE],
      [EncodeWord(4, OP_BRANCH_CONDITIONAL), res51, label52, label53]
    ]
  }

  function Block52(ty: TypeInputs, c: Constants, functionType: Word, ids: seq<Word>): (r: seq<seq<Word>>)
    requires |ids| == AXIS_IDS
    ensures AllProper(r) && BlockEnds(r)
  {
    var a := ids[3];
    var label52 := ids[31];
    var label53 := ids[32];
    var res54 := ids[33];
    var res55 := ids[34];
    var res56 := ids[35];
    var res57 := ids[36];
    var res58 := ids[37];
    [
      [EncodeWord(2, OP_LABEL), label52],
      [EncodeWord(5, OP_ACCESS_CHAIN), ty.ptrFloatId, res54, a, c.uint1],
      [EncodeWord(4, OP_LOAD), ty.floatId, res55, res54],
      [EncodeWord(5, OP_ACCESS_CHAIN), ty.ptrFloatId, res56, a, c.uint2],
      [EncodeWord(4, OP_LOAD), ty.floatId, res57, res56],
      [EncodeWord(5, OP_F_ORD_GREATER_THAN_EQUAL), ty.boolId, res58, res55, res57],
      [EncodeWord(2, OP_BRANCH), label53]
    ]
  }

  function Block53(ty: TypeInputs, c: Constants, functionType: Word, ids: seq<Word>): (r: seq<seq<Word>>)
    requires |ids| == AXIS_IDS
    ensures AllProper(r) && BlockEnds(r)
  {
    var label46 := ids[25];
    var res51 := ids[30];
    var label52 := ids[31];
    var label53 := ids[32];
    var res58 := ids[37];
    var res59 := ids[38];
    var label60 := ids[39];
    var label61 := ids[40];
    var label69 := ids[45];
    [
      [EncodeWord(2, OP_LABEL), label53],
      [EncodeWord(7, OP_PHI), ty.boolId, res59, res51, label46, res58, label52],
      [EncodeWord(3, OP_SELECTION_MERGE), label61, SELECTION_CONTROL_NONE],
      [EncodeWord(4, OP_BRANCH_CONDITIONAL), res59, label60, label69]
    ]
  }

  function Block60(ty: TypeInputs, c: Constants, functionType: Word, ids: seq<Word>): (r: seq<seq<Word>>)
    requires |ids| == AXIS_IDS
    ensures AllProper(r) && BlockEnds(r)
  {
    var r := ids[1];
    var label60 := ids[39];
    var res62 := ids[41];
    var res63 := ids[42];
    var res64 := ids[43];
    var res67 := ids[44];
    [
      [EncodeWord(2, OP_LABEL), label60],
      [EncodeWord(5, OP_ACCESS_CHAIN), ty.ptrFloatId, res62, r, c.uint1],
      [EncodeWord(4, OP_LOAD), ty.floatId, res63, res62],
      [EncodeWord(5, OP_F_ORD_GREATER_THAN), ty.boolId, res64, res63, c.float0],
      [EncodeWord(6, OP_SELECT), ty.intId, res67, res64, c.int2, c.int3],
      [EncodeWord(2, OP_RETURN_VALUE), res67]
    ]
  }

  function Block69(ty: TypeInputs, c: Constants, functionType: Word, ids: seq<Word>): (r: seq<seq<Word>>)
    requires |ids| == AXIS_IDS
    ensures AllProper(r) && BlockEnds(r)
  {
    var r := ids[1];
    var label69 := ids[45];
    var res70 := ids[46];
    var res71 := ids[47];
    var res72 := ids[48];
    var res75 := ids[49];
    [
      [EncodeWord(2, OP_LABEL), label69],
      [EncodeWord(5, OP_ACCESS_CHAIN), ty.ptrFloatId, res70, r, c.uint2],
      [EncodeWord(4, OP_LOAD), ty.floatId, res71, res70],
      [EncodeWord(5, OP_F_ORD_GREATER_THAN), ty.boolId, res72, res71, c.float0],
      [EncodeWord(6, OP_SELECT), ty.intId, res75, res72, c.int4, c.int5],
      [EncodeWord(2, OP_RETURN_VALUE), res75]
    ]
  }

  function Block61(ty: TypeInputs, c: Constants, functionType: Word, ids: seq<Word>): (r: seq<seq<Word>>)
    requires |ids| == AXIS_IDS
    ensures AllProper(r) && BlockEnds(r)
  {
    var label61 := ids[40];
    [
      [EncodeWord(2, OP_LABEL), label61],
      [EncodeWord(1, OP_UNREACHABLE)]
    ]
  }

  function Block37(ty: TypeInputs, c: Constants, functionType: Word, ids: seq<Word>): (r: seq<seq<Word>>)
    requires |ids| == AXIS_IDS
    ensures AllProper(r) && BlockEnds(r)
  {
    var label37 := ids[20];
    [
      [EncodeWord(2, OP_LABEL), label37],
      [EncodeWord(1, OP_UNREACHABLE)]
    ]
  }
  /** The helper's blocks after the entry block, and the function's end. */
  function AxisRest(ty: TypeInputs, c: Constants, functionType: Word, ids: seq<Word>): (r: seq<seq<Word>>)
    requires |ids| == AXIS_IDS
    ensures AllProper(r)
  {
    var r := Block27(ty, c, functionType, ids) + Block28(ty, c, functionType, ids) + Block36(ty, c, functionType, ids);
    AllProperAppend(Block27(ty, c, functionType, ids), Block28(ty, c, functionType, ids));
    AllProperAppend(Block27(ty, c, functionType, ids) + Block28(ty, c, functionType, ids), Block36(ty, c, functionType, ids));
    var s := Block46(ty, c, functionType, ids) + Block52(ty, c, functionType, ids) + Block53(ty, c, functionType, ids);
    AllProperAppend(Block46(ty, c, functionType, ids), Block52(ty, c, functionType, ids));
    AllProperAppend(Block46(ty, c, functionType, ids) + Block52(ty, c, functionType, ids), Block53(ty, c, functionType, ids));
    var u := Block60(ty, c, functionType, ids) + Block69(ty, c, functionType, ids) + Block61(ty, c, functionType, ids);
    AllProperAppend(Block60(ty, c, functionType, ids), Block69(ty, c, functionType, ids));
    AllProperAppend(Block60(ty, c, functionType, ids) + Block69(ty, c, functionType, ids), Block61(ty, c, functionType, ids));
    var v := Block37(ty, c, functionType, ids) + [[EncodeWord(1, OP_FUNCTION_END)]];
    AllProperAppend(Block37(ty, c, functionType, ids), [[EncodeWord(1, OP_FUNCTION_END)]]);
    AllProperAppend(r, s);
    AllProperAppend(r + s, u);
    AllProperAppend(r + s + u, v);
    r + s + u + v
  }

  /** The helper's instructions, with the `OpExtInst` count left open. */
  function AxisWords(extInstCount: HalfWord, ty: TypeInputs, c: Constants, functionType: Word, ids: seq<Word>): seq<seq<Word>>
    requires |ids| == AXIS_IDS
  {
    Entry(extInstCount, ty, c, functionType, ids) + AxisRest(ty, c, functionType, ids)
  }

  /** Every instruction of the helper declares its own length exactly when
      the `OpExtInst` count is 6. */
  lemma AxisCounts(extInstCount: HalfWord, ty: TypeInputs, c: Constants, functionType: Word, ids: seq<Word>)
    requires |ids| == AXIS_IDS
    ensures AllProper(AxisWords(extInstCount, ty, c, functionType, ids)) <==> extInstCount == EXT_INST_COUNT
  {
    var e := Entry(extInstCount, ty, c, functionType, ids);
    var r := AxisWords(extInstCount, ty, c, functionType, ids);
    if extInstCount == EXT_INST_COUNT {
      assert e == e[..5] + [e[5]] + e[6..];
      AllProperAppend(e[..5], [e[5]]);
      AllProperAppend(e[..5] + [e[5]], e[6..]);
      AllProperAppend(e, AxisRest(ty, c, functionType, ids));
    } else {
      assert r[5] == e[5];
    }
  }

  /** As written, the sixth instruction, the `OpExtInst`, declares 7 words
      and has 6. */
  lemma AxisAsWrittenMiscounts(ty: TypeInputs, c: Constants, functionType: Word, ids: seq<Word>)
    requires |ids| == AXIS_IDS
    ensures var r := AxisWords(EXT_INST_COUNT_AS_WRITTEN, ty, c, functionType, ids);
      !AllProper(r) && HiWord(r[5][0]) == 7 && |r[5]| == 6
  {
    AxisCounts(EXT_INST_COUNT_AS_WRITTEN, ty, c, functionType, ids);
    assert AxisWords(EXT_INST_COUNT_AS_WRITTEN, ty, c, functionType, ids)[5] ==
           Entry(EXT_INST_COUNT_AS_WRITTEN, ty, c, functionType, ids)[5];
  }

  /** And a walk over the emitted words by word count goes astray there: it
      steps into the `OpStore` that follows and lands on the variable `a`,
      whose id reads as a word count of 0 while the module has fewer than
      65536 ids. */
  lemma AxisAsWrittenBreaksWalk(ty: TypeInputs, c: Constants, functionType: Word, ib: Word, ids: seq<Word>)
    requires ids == Run(ib, AXIS_IDS) && ib + AXIS_IDS <= 0x1_0000
    ensures !WellFormed(Flatten(AxisWords(EXT_INST_COUNT_AS_WRITTEN, ty, c, functionType, ids)))
  {
    var r := AxisWords(EXT_INST_COUNT_AS_WRITTEN, ty, c, functionType, ids);
    var e := Entry(EXT_INST_COUNT_AS_WRITTEN, ty, c, functionType, ids);
    assert r[..5] == e[..5] && r[5] == e[5] && r[6] == e[6];
    assert e[6][1] == ids[3] == ib + 3;
    FlattenAt(r, 5);
    FlattenAt(r, 6);
    OvercountLandsOn(r[..5], r[5], r[6], Flatten(r[7..]));
  }

  /** With the count corrected, the helper is a well-formed stream that a
      walk cuts back into exactly its instructions. */
  lemma AxisCorrected(ty: TypeInputs, c: Constants, functionType: Word, ids: seq<Word>)
    requires |ids| == AXIS_IDS
    ensures var r := AxisWords(EXT_INST_COUNT, ty, c, functionType, ids);
      AllProper(r) && WellFormed(Flatten(r)) && Instructions(Flatten(r)) == r
  {
    AxisCounts(EXT_INST_COUNT, ty, c, functionType, ids);
    EmittedWellFormed(AxisWords(EXT_INST_COUNT, ty, c, functionType, ids));
  }

  /** Each of the three branches that pick a pair of faces ends in
      `OpReturnValue`; the two merge blocks hold only `OpUnreachable`. */
  lemma AxisExits(ty: TypeInputs, c: Constants, functionType: Word, ids: seq<Word>)
    requires |ids| == AXIS_IDS
    ensures var b := Block36(ty, c, functionType, ids); Opcode(b[|b| - 1]) == OP_RETURN_VALUE
    ensures var b := Block60(ty, c, functionType, ids); Opcode(b[|b| - 1]) == OP_RETURN_VALUE
    ensures var b := Block69(ty, c, functionType, ids); Opcode(b[|b| - 1]) == OP_RETURN_VALUE
    ensures var b := Block61(ty, c, functionType, ids); |b| == 2 && Opcode(b[1]) == OP_UNREACHABLE
    ensures var b := Block37(ty, c, functionType, ids); |b| == 2 && Opcode(b[1]) == OP_UNREACHABLE
  {
  }

  /** `cube_direction_to_axis_spv`: fifty fresh ids, the first of which is
      the function; the helper's words are emitted as written, with the
      `OpExtInst` declaring 7 words, so they open with the `OpFunction`
      that defines that id, and, while the module has fewer than 65536
      ids, they are not a well-formed stream. */
  method CubeDirectionToAxisSpv(ib: Word, ty: TypeInputs, c: Constants, functionType: Word)
    returns (cubemapFn: Word, spv: seq<Word>, newIb: Word)
    requires ib + AXIS_IDS <= MAX_WORD
    ensures cubemapFn == ib && newIb == ib + AXIS_IDS
    ensures spv == Flatten(AxisWords(EXT_INST_COUNT_AS_WRITTEN, ty, c, functionType, Run(ib, AXIS_IDS)))
    ensures |spv| > 2 && LoWord(spv[0]) == OP_FUNCTION && spv[2] == cubemapFn
    ensures ib + AXIS_IDS <= 0x1_0000 ==> !WellFormed(spv)
  {
    var ids;
    ids, newIb := AllocRun(ib, AXIS_IDS);
    cubemapFn := ids[0];
    var r := AxisWords(EXT_INST_COUNT_AS_WRITTEN, ty, c, functionType, ids);
    spv := Flatten(r);
    assert r[0] == Entry(EXT_INST_COUNT_AS_WRITTEN, ty, c, functionType, ids)[0];
    assert spv == r[0] + Flatten(r[1..]);
    if ib + AXIS_IDS <= 0x1_0000 {
      AxisAsWrittenBreaksWalk(ty, c, functionType, ib, ids);
    }
  }

  // The face rule.

  function Abs(v: int): nat
  {
    if v < 0 then -v else v
  }

  /** The face the helper's branches pick for the direction (x, y, z):
      x's pair when |x| is at least |y| and, only then, at least |z|;
      otherwise y's pair when |y| is at least |x| and |z|; otherwise z's.
      Within a pair the even face goes to a positive component. The
      components are read as integers. */
  function AxisFace(x: int, y: int, z: int): (face: int)
    ensures 0 <= face < 6
  {
    var ax, ay, az := Abs(x), Abs(y), Abs(z);
    var xMajor := if ax >= ay then ax >= az else false;
    if xMajor then (if x > 0 then 0 else 1)
    else
      var yMajor := if ay >= ax then ay >= az else false;
      if yMajor then (if y > 0 then 2 else 3) else (if z > 0 then 4 else 5)
  }

  /** Component `axis` of (x, y, z): 0 is x, 1 is y, 2 is z. */
  function Component(x: int, y: int, z: int, axis: nat): int
    requires axis < 3
  {
    if axis == 0 then x else if axis == 1 then y else z
  }

  /** `axis` is the first axis, in the order x, y, z, whose component has
      the largest magnitude. */
  predicate FirstMajor(x: int, y: int, z: int, axis: nat)
    requires axis < 3
  {
    (forall b: nat :: b < 3 ==> Abs(Component(x, y, z, b)) <= Abs(Component(x, y, z, axis))) &&
    (forall b: nat :: b < axis ==> Abs(Component(x, y, z, b)) < Abs(Component(x, y, z, axis)))
  }

  /** The face's pair is the first major axis, and no other axis is, and
      the even face of the pair is chosen exactly when that component is
      positive. */
  lemma AxisFaceMajor(x: int, y: int, z: int)
    ensures FirstMajor(x, y, z, AxisFace(x, y, z) / 2)
    ensures forall a: nat :: a < 3 && FirstMajor(x, y, z, a) ==> a == AxisFace(x, y, z) / 2
    ensures AxisFace(x, y, z) % 2 == 0 <==> Component(x, y, z, AxisFace(x, y, z) / 2) > 0
  {
    var f := AxisFace(x, y, z);
    assert forall b: nat :: b < 3 ==> Component(x, y, z, b) == (if b == 0 then x else if b == 1 then y else z);
  }
}
