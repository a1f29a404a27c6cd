/** The generators of src/storagecubepatch/image_cube_direction_to_arrayed.rs:
    the function type and the constants of a helper that maps an integer
    cube direction to the coordinates (s, t) on the face it points at and
    the face's index, for an arrayed two-dimensional image standing in for
    a cube image, and the helper itself. As in the axis helper, every
    generator takes its fresh ids from the bound by a run of `inc` calls and
    emits a literal list of instructions, transcribed here as written, with
    `ids` the run of fresh ids in the order of the `inc` calls.
    `ArrayedFace` and `ArrayedCoordinates` state what the helper's branches
    compute. */
module ImageCubeDirectionToArrayed {
  import opened Words
  import opened Spv
  import opened Stream
  import opened Layout
  import opened Ids
  import Axis = CubeDirectionToAxis

  /** The type ids the helper uses, declared by the caller. */
  datatype TypeInputs = TypeInputs(intId: Word, v3intId: Word, v2intId: Word, boolId: Word,
                                   ptrV3intId: Word, ptrIntId: Word, ptrBoolId: Word, ptrV2intId: Word)

  /** The ids of the six integer constants 0 to 5. */
  datatype Constants = Constants(int0: Word, int1: Word, int2: Word, int3: Word, int4: Word, int5: Word)

  /** `%_function_type = OpTypeFunction %v3int %_ptr_Function_v3int`. */
  function FnTypeWords(ty: TypeInputs, functionType: Word): seq<seq<Word>>
  {
    [[EncodeWord(4, OP_TYPE_FUNCTION), functionType, ty.v3intId, ty.ptrV3intId]]
  }

  /** `image_cube_direction_to_arrayed_fn_type`: one fresh id, the function
      type, in a well-formed stream of four words that declares it, and,
      when the two types it names were declared before it, laid out as
      section 2.3 of the SPIR-V specification says. */
  method ArrayedFnType(ib: Word, ty: TypeInputs) returns (functionType: Word, spv: seq<Word>, newIb: Word)
    requires ib < MAX_WORD
    ensures functionType == ib && newIb == ib + 1
    ensures WellFormed(spv) && Instructions(spv) == FnTypeWords(ty, functionType)
    ensures Instructions(spv) == [[EncodeWord(4, OP_TYPE_FUNCTION), functionType, ty.v3intId, ty.ptrV3intId]]
    ensures ty.v3intId < ib && ty.ptrV3intId < ib ==> AllLaidOut(Instructions(spv), ib)
  {
    functionType, newIb := Inc(ib);
    var r := FnTypeWords(ty, functionType);
    spv := Flatten(r);
    EmittedWellFormed(r);
  }

  /** Six `OpConstant` instructions declaring the integers 0 to 5, their ids
      the fresh run `ids`. */
  function ConstantsWords(intId: Word, ids: seq<Word>): seq<seq<Word>>
    requires |ids| == 6
  {
    [
      [EncodeWord(4, OP_CONSTANT), intId, ids[0], 0],
      [EncodeWord(4, OP_CONSTANT), intId, ids[1], 1],
      [EncodeWord(4, OP_CONSTANT), intId, ids[2], 2],
      [EncodeWord(4, OP_CONSTANT), intId, ids[3], 3],
      [EncodeWord(4, OP_CONSTANT), intId, ids[4], 4],
      [EncodeWord(4, OP_CONSTANT), intId, ids[5], 5]
    ]
  }

  /** The record the constants generator returns. */
  function ConstantsOf(ids: seq<Word>): Constants
    requires |ids| == 6
  {
    Constants(ids[0], ids[1], ids[2], ids[3], ids[4], ids[5])
  }

  /** Each id of the record is declared as the integer its name says, by
      an instruction of four words that declares its own length; with the
      fresh run starting at `ib` and the int type below it, the six are laid
      out as section 2.3 says. */
  lemma ConstantsDeclared(intId: Word, ib: Word, ids: seq<Word>)
    requires ids == Run(ib, 6)
    ensures var r := ConstantsWords(intId, ids);
            var c := ConstantsOf(ids);
      |r| == 6 && AllProper(r) && (forall k :: 0 <= k < 6 ==> |r[k]| == 4) &&
      DeclaresConstant(r[0], intId, c.int0, 0) && DeclaresConstant(r[1], intId, c.int1, 1) &&
      DeclaresConstant(r[2], intId, c.int2, 2) && DeclaresConstant(r[3], intId, c.int3, 3) &&
      DeclaresConstant(r[4], intId, c.int4, 4) && DeclaresConstant(r[5], intId, c.int5, 5)
    ensures intId < ib ==> AllLaidOut(ConstantsWords(intId, ids), ib)
  {
  }

  /** `image_cube_direction_to_arrayed_constants_spv`: six fresh ids and
      the instructions declaring them, twenty-four words in a well-formed
      stream. */
  method ArrayedConstants(ib: Word, intId: Word) returns (c: Constants, spv: seq<Word>, newIb: Word)
    requires ib + 6 <= MAX_WORD
    ensures c == ConstantsOf(Run(ib, 6)) && newIb == ib + 6
    ensures WellFormed(spv) && Instructions(spv) == ConstantsWords(intId, Run(ib, 6)) && |spv| == 24
  {
    var ids;
    ids, newIb := AllocRun(ib, 6);
    c := ConstantsOf(ids);
    var r := ConstantsWords(intId, ids);
    spv := Flatten(r);
    ConstantsDeclared(intId, ib, ids);
    EmittedWellFormed(r);
    FlattenLength(r, 4);
  }

  /** The helper allocates 137 ids: the function, its parameter, the
      labels, the variables and every intermediate result. */
  const ARRAYED_IDS: nat := 137

  // The helper, block by block. The entry block comes with the function
  // header and the variables; the GLSL.std.450 instruction is SAbs.

  function Entry(ty: TypeInputs, c: Constants, functionType: Word, glslStd: Word, ids: seq<Word>): (r: seq<seq<Word>>)
    requires |ids| == ARRAYED_IDS
    ensures AllProper(r) && |r| >= 3 && BlockEnds(r[2..])
  {
    var funcId := ids[0];
    var r := ids[1];
    var label12 := ids[2];
    var a := ids[3];
    var x := ids[4];
    var y := ids[5];
    var face := ids[6];
    var var53 := ids[7];
    var var64 := ids[8];
    var st := ids[9];
    var var87 := ids[10];
    var var100 := ids[11];
    var var112 := ids[12];
    var var123 := ids[13];
    var var135 := ids[14];
    var res14 := ids[15];
    var res15 := ids[16];
    var res22 := ids[17];
    var res23 := ids[18];
    var res25 := ids[19];
    var res26 := ids[20];
    var res27 := ids[21];
    var label29 := ids[22];
    var label28 := ids[23];
    [
      [EncodeWord(5, OP_FUNCTION), ty.v3intId, funcId, FUNCTION_CONTROL_INLINE, functionType],
      [EncodeWord(3, OP_FUNCTION_PARAMETER), ty.ptrV3intId, r],
      [EncodeWord(2, OP_LABEL), label12],
      [EncodeWord(4, OP_VARIABLE), ty.ptrV3intId, a, STORAGE_CLASS_FUNCTION],
      [EncodeWord(4, OP_VARIABLE), ty.ptrBoolId, x, STORAGE_CLASS_FUNCTION],
      [EncodeWord(4, OP_VARIABLE), ty.ptrBoolId, y, STORAGE_CLASS_FUNCTION],
      [EncodeWord(4, OP_VARIABLE), ty.ptrIntId, face, STORAGE_CLASS_FUNCTION],
      [EncodeWord(4, OP_VARIABLE), ty.ptrIntId, var53, STORAGE_CLASS_FUNCTION],
      [EncodeWord(4, OP_VARIABLE), ty.ptrIntId, var64, STORAGE_CLASS_FUNCTION],
      [EncodeWord(4, OP_VARIABLE), ty.ptrV2intId, st, STORAGE_CLASS_FUNCTION],
      [EncodeWord(4, OP_VARIABLE), ty.ptrV2intId, var87, STORAGE_CLASS_FUNCTION],
      [EncodeWord(4, OP_VARIABLE), ty.ptrV2intId, var100, STORAGE_CLASS_FUNCTION],
      [EncodeWord(4, OP_VARIABLE), ty.ptrV2intId, var112, STORAGE_CLASS_FUNCTION],
      [EncodeWord(4, OP_VARIABLE), ty.ptrV2intId, var123, STORAGE_CLASS_FUNCTION],
      [EncodeWord(4, OP_VARIABLE), ty.ptrV2intId, var135, STORAGE_CLASS_FUNCTION],
      [EncodeWord(4, OP_LOAD), ty.v3intId, res14, r],
      [EncodeWord(6, OP_EXT_INST), ty.v3intId, res15, glslStd, GLSL_SABS, res14],
      [EncodeWord(3, OP_STORE), a, res15],
      [EncodeWord(5, OP_ACCESS_CHAIN), ty.ptrIntId, res22, a, c.int0],
      [EncodeWord(4, OP_LOAD), ty.intId, res23, res22],
      [EncodeWord(5, OP_ACCESS_CHAIN), ty.ptrIntId, res25, a, c.int1],
      [EncodeWord(4, OP_LOAD), ty.intId, res26, res25],
      [EncodeWord(5, OP_S_GREATER_THAN_EQUAL), ty.boolId, res27, res23, res26],
      [EncodeWord(3, OP_SELECTION_MERGE), label29, 0],
      [EncodeWord(4, OP_BRANCH_CONDITIONAL), res27, label28, label29]
    ]
  }

  function Block28(ty: TypeInputs, c: Constants, functionType: Word, glslStd: Word, ids: seq<Word>): (r: seq<seq<Word>>)
    requires |ids| == ARRAYED_IDS
    ensures AllProper(r) && BlockEnds(r)
  {
    var a := ids[3];
    var label29 := ids[22];
    var label28 := ids[23];
    var res30 := ids[24];
    var res31 := ids[25];
    var res33 := ids[26];
    var res34 := ids[27];
    var res35 := ids[28];
    [
      [EncodeWord(2, OP_LABEL), label28],
      [EncodeWord(5, OP_ACCESS_CHAIN), ty.ptrIntId, res30, a, c.int0],
      [EncodeWord(4, OP_LOAD), ty.intId, res31, res30],
      [EncodeWord(5, OP_ACCESS_CHAIN), ty.ptrIntId, res33, a, c.int2],
      [EncodeWord(4, OP_LOAD), ty.intId, res34, res33],
      [EncodeWord(5, OP_S_GREATER_THAN_EQUAL), ty.boolId, res35, res31, res34],
      [EncodeWord(2, OP_BRANCH), label29]
    ]
  }

  function Block29(ty: TypeInputs, c: Constants, functionType: Word, glslStd: Word, ids: seq<Word>): (r: seq<seq<Word>>)
    requires |ids| == ARRAYED_IDS
    ensures AllProper(r) && BlockEnds(r)
  {
    var label12 := ids[2];
    var a := ids[3];
    var x := ids[4];
    var res27 := ids[21];
    var label29 := ids[22];
    var label28 := ids[23];
    var res35 := ids[28];
    var res36 := ids[29];
    var res38 := ids[30];
    var res39 := ids[31];
    var res40 := ids[32];
    var res41 := ids[33];
    var res42 := ids[34];
    var label44 := ids[35];
    var label43 := ids[36];
    [
      [EncodeWord(2, OP_LABEL), label29],
      [EncodeWord(7, OP_PHI), ty.boolId, res36, res27, label12, res35, label28],
      [EncodeWord(3, OP_STORE), x, res36],
      [EncodeWord(5, OP_ACCESS_CHAIN), ty.ptrIntId, res38, a, c.int1],
      [EncodeWord(4, OP_LOAD), ty.intId, res39, res38],
      [EncodeWord(5, OP_ACCESS_CHAIN), ty.ptrIntId, res40, a, c.int0],
      [EncodeWord(4, OP_LOAD), ty.intId, res41, res40],
      [EncodeWord(5, OP_S_GREATER_THAN), ty.boolId, res42, res39, res41],
      [EncodeWord(3, OP_SELECTION_MERGE), label44, 0],
      [EncodeWord(4, OP_BRANCH_CONDITIONAL), res42, label43, label44]
    ]
  }

  function Block43(ty: TypeInputs, c: Constants, functionType: Word, glslStd: Word, ids: seq<Word>): (r: seq<seq<Word>>)
    requires |ids| == ARRAYED_IDS
    ensures AllProper(r) && BlockEnds(r)
  {
    var a := ids[3];
    var label44 := ids[35];
    var label43 := ids[36];
    var res45 := ids[37];
    var res46 := ids[38];
    var res47 := ids[39];
    var res48 := ids[40];
    var res49 := ids[41];
    [
      [EncodeWord(2, OP_LABEL), label43],
      [EncodeWord(5, OP_ACCESS_CHAIN), ty.ptrIntId, res45, a, c.int1],
      [EncodeWord(4, OP_LOAD), ty.intId, res46, res45],
      [EncodeWord(5, OP_ACCESS_CHAIN), ty.ptrIntId, res47, a, c.int2],
      [EncodeWord(4, OP_LOAD), ty.intId, res48, res47],
      [EncodeWord(5, OP_S_GREATER_THAN_EQUAL), ty.boolId, res49, res46, res48],
      [EncodeWord(2, OP_BRANCH), label44]
    ]
  }

  function Block44(ty: TypeInputs, c: Constants, functionType: Word, glslStd: Word, ids: seq<Word>): (r: seq<seq<Word>>)
    requires |ids| == ARRAYED_IDS
    ensures AllProper(r) && BlockEnds(r)
  {
    var x := ids[4];
    var y := ids[5];
    var label29 := ids[22];
    var res42 := ids[34];
    var label44 := ids[35];
    var label43 := ids[36];
    var res49 := ids[41];
    var res50 := ids[42];
    var res52 := ids[43];
    var label55 := ids[44];
    var label54 := ids[45];
    var label62 := ids[46];
    [
      [EncodeWord(2, OP_LABEL), label44],
      [EncodeWord(7, OP_PHI), ty.boolId, res50, res42, label29, res49, label43],
      [EncodeWord(3, OP_STORE), y, res50],
      [EncodeWord(4, OP_LOAD), ty.boolId, res52, x],
      [EncodeWord(3, OP_SELECTION_MERGE), label55, 0],
      [EncodeWord(4, OP_BRANCH_CONDITIONAL), res52, label54, label62]
    ]
  }

  function Block54(ty: TypeInputs, c: Constants, functionType: Word, glslStd: Word, ids: seq<Word>): (r: seq<seq<Word>>)
    requires |ids| == ARRAYED_IDS
    ensures AllProper(r) && BlockEnds(r)
  {
    var r := ids[1];
    var var53 := ids[7];
    var label55 := ids[44];
    var label54 := ids[45];
    var res56 := ids[47];
    var res57 := ids[48];
    var res59 := ids[49];
    var res61 := ids[50];
    [
      [EncodeWord(2, OP_LABEL), label54],
      [EncodeWord(5, OP_ACCESS_CHAIN), ty.ptrIntId, res56, r, c.int0],
      [EncodeWord(4, OP_LOAD), ty.intId, res57, res56],
      [EncodeWord(5, OP_S_GREATER_THAN), ty.boolId, res59, res57, c.int0],
      [EncodeWord(6, OP_SELECT), ty.intId, res61, res59, c.int0, c.int1],
      [EncodeWord(3, OP_STORE), var53, res61],
      [EncodeWord(2, OP_BRANCH), label55]
    ]
  }

  function Block62(ty: TypeInputs, c: Constants, functionType: Word, glslStd: Word, ids: seq<Word>): (r: seq<seq<Word>>)
    requires |ids| == ARRAYED_IDS
    ensures AllProper(r) && BlockEnds(r)
  {
    var y := ids[5];
    var label62 := ids[46];
    var res63 := ids[51];
    var label66 := ids[52];
    var label65 := ids[53];
    var label73 := ids[54];
    [
      [EncodeWord(2, OP_LABEL), label62],
      [EncodeWord(4, OP_LOAD), ty.boolId, res63, y],
      [EncodeWord(3, OP_SELECTION_MERGE), label66, 0],
      [EncodeWord(4, OP_BRANCH_CONDITIONAL), res63, label65, label73]
    ]
  }

  function Block65(ty: TypeInputs, c: Constants, functionType: Word, glslStd: Word, ids: seq<Word>): (r: seq<seq<Word>>)
    requires |ids| == ARRAYED_IDS
    ensures AllProper(r) && BlockEnds(r)
  {
    var r := ids[1];
    var var64 := ids[8];
    var label66 := ids[52];
    var label65 := ids[53];
    var res67 := ids[55];
    var res68 := ids[56];
    var res69 := ids[57];
    var res72 := ids[58];
    [
      [EncodeWord(2, OP_LABEL), label65],
      [EncodeWord(5, OP_ACCESS_CHAIN), ty.ptrIntId, res67, r, c.int1],
      [EncodeWord(4, OP_LOAD), ty.intId, res68, res67],
      [EncodeWord(5, OP_S_GREATER_THAN), ty.boolId, res69, res68, c.int0],
      [EncodeWord(6, OP_SELECT), ty.intId, res72, res69, c.int2, c.int3],
      [EncodeWord(3, OP_STORE), var64, res72],
      [EncodeWord(2, OP_BRANCH), label66]
    ]
  }

  function Block73(ty: TypeInputs, c: Constants, functionType: Word, glslStd: Word, ids: seq<Word>): (r: seq<seq<Word>>)
    requires |ids| == ARRAYED_IDS
    ensures AllProper(r) && BlockEnds(r)
  {
    var r := ids[1];
    var var64 := ids[8];
    var label66 := ids[52];
    var label73 := ids[54];
    var res74 := ids[59];
    var res75 := ids[60];
    var res76 := ids[61];
    var res79 := ids[62];
    [
      [EncodeWord(2, OP_LABEL), label73],
      [EncodeWord(5, OP_ACCESS_CHAIN), ty.ptrIntId, res74, r, c.int2],
      [EncodeWord(4, OP_LOAD), ty.intId, res75, res74],
      [EncodeWord(5, OP_S_GREATER_THAN), ty.boolId, res76, res75, c.int0],
      [EncodeWord(6, OP_SELECT), ty.intId, res79, res76, c.int4, c.int5],
      [EncodeWord(3, OP_STORE), var64, res79],
      [EncodeWord(2, OP_BRANCH), label66]
    ]
  }

  function Block66(ty: TypeInputs, c: Constants, functionType: Word, glslStd: Word, ids: seq<Word>): (r: seq<seq<Word>>)
    requires |ids| == ARRAYED_IDS
    ensures AllProper(r) && BlockEnds(r)
  {
    var var53 := ids[7];
    var var64 := ids[8];
    var label55 := ids[44];
    var label66 := ids[52];
    var res80 := ids[63];
    [
      [EncodeWord(2, OP_LABEL), label66],
      [EncodeWord(4, OP_LOAD), ty.intId, res80, var64],
      [EncodeWord(3, OP_STORE), var53, res80],
      [EncodeWord(2, OP_BRANCH), label55]
    ]
  }

  function Block55(ty: TypeInputs, c: Constants, functionType: Word, glslStd: Word, ids: seq<Word>): (r: seq<seq<Word>>)
    requires |ids| == ARRAYED_IDS
    ensures AllProper(r) && BlockEnds(r)
  {
    var face := ids[6];
    var var53 := ids[7];
    var label55 := ids[44];
    var res81 := ids[64];
    var res85 := ids[65];
    var res86 := ids[66];
    var label89 := ids[67];
    var label88 := ids[68];
    var label97 := ids[69];
    [
      [EncodeWord(2, OP_LABEL), label55],
      [EncodeWord(4, OP_LOAD), ty.intId, res81, var53],
      [EncodeWord(3, OP_STORE), face, res81],
      [EncodeWord(4, OP_LOAD), ty.intId, res85, face],
      [EncodeWord(5, OP_I_EQUAL), ty.boolId, res86, res85, c.int0],
      [EncodeWord(3, OP_SELECTION_MERGE), label89, 0],
      [EncodeWord(4, OP_BRANCH_CONDITIONAL), res86, label88, label97]
    ]
  }

  function Block88(ty: TypeInputs, c: Constants, functionType: Word, glslStd: Word, ids: seq<Word>): (r: seq<seq<Word>>)
    requires |ids| == ARRAYED_IDS
    ensures AllProper(r) && BlockEnds(r)
  {
    var r := ids[1];
    var var87 := ids[10];
    var label89 := ids[67];
    var label88 := ids[68];
    var res90 := ids[70];
    var res91 := ids[71];
    var res92 := ids[72];
    var res93 := ids[73];
    var res94 := ids[74];
    var res95 := ids[75];
    var res96 := ids[76];
    [
      [EncodeWord(2, OP_LABEL), label88],
      [EncodeWord(5, OP_ACCESS_CHAIN), ty.ptrIntId, res90, r, c.int2],
      [EncodeWord(4, OP_LOAD), ty.intId, res91, res90],
      [EncodeWord(4, OP_S_NEGATE), ty.intId, res92, res91],
      [EncodeWord(5, OP_ACCESS_CHAIN), ty.ptrIntId, res93, r, c.int1],
      [EncodeWord(4, OP_LOAD), ty.intId, res94, res93],
      [EncodeWord(4, OP_S_NEGATE), ty.intId, res95, res94],
      [EncodeWord(5, OP_COMPOSITE_CONSTRUCT), ty.v2intId, res96, res92, res95],
      [EncodeWord(3, OP_STORE), var87, res96],
      [EncodeWord(2, OP_BRANCH), label89]
    ]
  }

  function Block97(ty: TypeInputs, c: Constants, functionType: Word, glslStd: Word, ids: seq<Word>): (r: seq<seq<Word>>)
    requires |ids| == ARRAYED_IDS
    ensures AllProper(r) && BlockEnds(r)
  {
    var face := ids[6];
    var label97 := ids[69];
    var res98 := ids[77];
    var res99 := ids[78];
    var label102 := ids[79];
    var label101 := ids[80];
    var label109 := ids[81];
    [
      [EncodeWord(2, OP_LABEL), label97],
      [EncodeWord(4, OP_LOAD), ty.intId, res98, face],
      [EncodeWord(5, OP_I_EQUAL), ty.boolId, res99, res98, c.int1],
      [EncodeWord(3, OP_SELECTION_MERGE), label102, 0],
      [EncodeWord(4, OP_BRANCH_CONDITIONAL), res99, label101, label109]
    ]
  }

  function Block101(ty: TypeInputs, c: Constants, functionType: Word, glslStd: Word, ids: seq<Word>): (r: seq<seq<Word>>)
    requires |ids| == ARRAYED_IDS
    ensures AllProper(r) && BlockEnds(r)
  {
    var r := ids[1];
    var var100 := ids[11];
    var label102 := ids[79];
    var label101 := ids[80];
    var res103 := ids[82];
    var res104 := ids[83];
    var res105 := ids[84];
    var res106 := ids[85];
    var res107 := ids[86];
    var res108 := ids[87];
    [
      [EncodeWord(2, OP_LABEL), label101],
      [EncodeWord(5, OP_ACCESS_CHAIN), ty.ptrIntId, res103, r, c.int2],
      [EncodeWord(4, OP_LOAD), ty.intId, res104, res103],
      [EncodeWord(5, OP_ACCESS_CHAIN), ty.ptrIntId, res105, r, c.int1],
      [EncodeWord(4, OP_LOAD), ty.intId, res106, res105],
      [EncodeWord(4, OP_S_NEGATE), ty.intId, res107, res106],
      [EncodeWord(5, OP_COMPOSITE_CONSTRUCT), ty.v2intId, res108, res104, res107],
      [EncodeWord(3, OP_STORE), var100, res108],
      [EncodeWord(2, OP_BRANCH), label102]
    ]
  }

  function Block109(ty: TypeInputs, c: Constants, functionType: Word, glslStd: Word, ids: seq<Word>): (r: seq<seq<Word>>)
    requires |ids| == ARRAYED_IDS
    ensures AllProper(r) && BlockEnds(r)
  {
    var face := ids[6];
    var label109 := ids[81];
    var res110 := ids[88];
    var res111 := ids[89];
    var label114 := ids[90];
    var label113 := ids[91];
    var label120 := ids[92];
    [
      [EncodeWord(2, OP_LABEL), label109],
      [EncodeWord(4, OP_LOAD), ty.intId, res110, face],
      [EncodeWord(5, OP_I_EQUAL), ty.boolId, res111, res110, c.int2],
      [EncodeWord(3, OP_SELECTION_MERGE), label114, 0],
      [EncodeWord(4, OP_BRANCH_CONDITIONAL), res111, label113, label120]
    ]
  }

  function Block113(ty: TypeInputs, c: Constants, functionType: Word, glslStd: Word, ids: seq<Word>): (r: seq<seq<Word>>)
    requires |ids| == ARRAYED_IDS
    ensures AllProper(r) && BlockEnds(r)
  {
    var r := ids[1];
    var var112 := ids[12];
    var label114 := ids[90];
    var label113 := ids[91];
    var res115 := ids[93];
    var res116 := ids[94];
    var res117 := ids[95];
    var res118 := ids[96];
    var res119 := ids[97];
    [
      [EncodeWord(2, OP_LABEL), label113],
      [EncodeWord(5, OP_ACCESS_CHAIN), ty.ptrIntId, res115, r, c.int0],
      [EncodeWord(4, OP_LOAD), ty.intId, res116, res115],
      [EncodeWord(5, OP_ACCESS_CHAIN), ty.ptrIntId, res117, r, c.int2],
      [EncodeWord(4, OP_LOAD), ty.intId, res118, res117],
      [EncodeWord(5, OP_COMPOSITE_CONSTRUCT), ty.v2intId, res119, res116, res118],
      [EncodeWord(3, OP_STORE), var112, res119],
      [EncodeWord(2, OP_BRANCH), label114]
    ]
  }

  function Block120(ty: TypeInputs, c: Constants, functionType: Word, glslStd: Word, ids: seq<Word>): (r: seq<seq<Word>>)
    requires |ids| == ARRAYED_IDS
    ensures AllProper(r) && BlockEnds(r)
  {
    var face := ids[6];
    var label120 := ids[92];
    var res121 := ids[98];
    var res122 := ids[99];
    var label125 := ids[100];
    var label124 := ids[101];
    var label132 := ids[102];
    [
      [EncodeWord(2, OP_LABEL), label120],
      [EncodeWord(4, OP_LOAD), ty.intId, res121, face],
      [EncodeWord(5, OP_I_EQUAL), ty.boolId, res122, res121, c.int3],
      [EncodeWord(3, OP_SELECTION_MERGE), label125, 0],
      [EncodeWord(4, OP_BRANCH_CONDITIONAL), res122, label124, label132]
    ]
  }

  function Block124(ty: TypeInputs, c: Constants, functionType: Word, glslStd: Word, ids: seq<Word>): (r: seq<seq<Word>>)
    requires |ids| == ARRAYED_IDS
    ensures AllProper(r) && BlockEnds(r)
  {
    var r := ids[1];
    var var123 := ids[13];
    var label125 := ids[100];
    var label124 := ids[101];
    var res126 := ids[103];
    var res127 := ids[104];
    var res128 := ids[105];
    var res129 := ids[106];
    var res130 := ids[107];
    var res131 := ids[108];
    [
      [EncodeWord(2, OP_LABEL), label124],
      [EncodeWord(5, OP_ACCESS_CHAIN), ty.ptrIntId, res126, r, c.int0],
      [EncodeWord(4, OP_LOAD), ty.intId, res127, res126],
      [EncodeWord(5, OP_ACCESS_CHAIN), ty.ptrIntId, res128, r, c.int2],
      [EncodeWord(4, OP_LOAD), ty.intId, res129, res128],
      [EncodeWord(4, OP_S_NEGATE), ty.intId, res130, res129],
      [EncodeWord(5, OP_COMPOSITE_CONSTRUCT), ty.v2intId, res131, res127, res130],
      [EncodeWord(3, OP_STORE), var123, res131],
      [EncodeWord(2, OP_BRANCH), label125]
    ]
  }

  function Block132(ty: TypeInputs, c: Constants, functionType: Word, glslStd: Word, ids: seq<Word>): (r: seq<seq<Word>>)
    requires |ids| == ARRAYED_IDS
    ensures AllProper(r) && BlockEnds(r)
  {
    var face := ids[6];
    var label132 := ids[102];
    var res133 := ids[109];
    var res134 := ids[110];
    var label137 := ids[111];
    var label136 := ids[112];
    var label144 := ids[113];
    [
      [EncodeWord(2, OP_LABEL), label132],
      [EncodeWord(4, OP_LOAD), ty.intId, res133, face],
      [EncodeWord(5, OP_I_EQUAL), ty.boolId, res134, res133, c.int4],
      [EncodeWord(3, OP_SELECTION_MERGE), label137, 0],
      [EncodeWord(4, OP_BRANCH_CONDITIONAL), res134, label136, label144]
    ]
  }

  function Block136(ty: TypeInputs, c: Constants, functionType: Word, glslStd: Word, ids: seq<Word>): (r: seq<seq<Word>>)
    requires |ids| == ARRAYED_IDS
    ensures AllProper(r) && BlockEnds(r)
  {
    var r := ids[1];
    var var135 := ids[14];
    var label137 := ids[111];
    var label136 := ids[112];
    var res138 := ids[114];
    var res139 := ids[115];
    var res140 := ids[116];
    var res141 := ids[117];
    var res142 := ids[118];
    var res143 := ids[119];
    [
      [EncodeWord(2, OP_LABEL), label136],
      [EncodeWord(5, OP_ACCESS_CHAIN), ty.ptrIntId, res138, r, c.int0],
      [EncodeWord(4, OP_LOAD), ty.intId, res139, res138],
      [EncodeWord(5, OP_ACCESS_CHAIN), ty.ptrIntId, res140, r, c.int1],
      [EncodeWord(4, OP_LOAD), ty.intId, res141, res140],
      [EncodeWord(4, OP_S_NEGATE), ty.intId, res142, res141],
      [EncodeWord(5, OP_COMPOSITE_CONSTRUCT), ty.v2intId, res143, res139, res142],
      [EncodeWord(3, OP_STORE), var135, res143],
      [EncodeWord(2, OP_BRANCH), label137]
    ]
  }

  function Block144(ty: TypeInputs, c: Constants, functionType: Word, glslStd: Word, ids: seq<Word>): (r: seq<seq<Word>>)
    requires |ids| == ARRAYED_IDS
    ensures AllProper(r) && BlockEnds(r)
  {
    var r := ids[1];
    var var135 := ids[14];
    var label137 := ids[111];
    var label144 := ids[113];
    var res145 := ids[120];
    var res146 := ids[121];
    var res147 := ids[122];
    var res148 := ids[123];
    var res149 := ids[124];
    var res150 := ids[125];
    var res151 := ids[126];
    [
      [EncodeWord(2, OP_LABEL), label144],
      [EncodeWord(5, OP_ACCESS_CHAIN), ty.ptrIntId, res145, r, c.int0],
      [EncodeWord(4, OP_LOAD), ty.intId, res146, res145],
      [EncodeWord(4, OP_S_NEGATE), ty.intId, res147, res146],
      [EncodeWord(5, OP_ACCESS_CHAIN), ty.ptrIntId, res148, r, c.int1],
      [EncodeWord(4, OP_LOAD), ty.intId, res149, res148],
      [EncodeWord(4, OP_S_NEGATE), ty.intId, res150, res149],
      [EncodeWord(5, OP_COMPOSITE_CONSTRUCT), ty.v2intId, res151, res147, res150],
      [EncodeWord(3, OP_STORE), var135, res151],
      [EncodeWord(2, OP_BRANCH), label137]
    ]
  }

  function Block137(ty: TypeInputs, c: Constants, functionType: Word, glslStd: Word, ids: seq<Word>): (r: seq<seq<Word>>)
    requires |ids| == ARRAYED_IDS
    ensures AllProper(r) && BlockEnds(r)
  {
    var var123 := ids[13];
    var var135 := ids[14];
    var label125 := ids[100];
    var label137 := ids[111];
    var res152 := ids[127];
    [
      [EncodeWord(2, OP_LABEL), label137],
      [EncodeWord(4, OP_LOAD), ty.v2intId, res152, var135],
      [EncodeWord(3, OP_STORE), var123, res152],
      [EncodeWord(2, OP_BRANCH), label125]
    ]
  }

  function Block125(ty: TypeInputs, c: Constants, functionType: Word, glslStd: Word, ids: seq<Word>): (r: seq<seq<Word>>)
    requires |ids| == ARRAYED_IDS
    ensures AllProper(r) && BlockEnds(r)
  {
    var var112 := ids[12];
    var var123 := ids[13];
    var label114 := ids[90];
    var label125 := ids[100];
    var res153 := ids[128];
    [
      [EncodeWord(2, OP_LABEL), label125],
      [EncodeWord(4, OP_LOAD), ty.v2intId, res153, var123],
      [EncodeWord(3, OP_STORE), var112, res153],
      [EncodeWord(2, OP_BRANCH), label114]
    ]
  }

  function Block114(ty: TypeInputs, c: Constants, functionType: Word, glslStd: Word, ids: seq<Word>): (r: seq<seq<Word>>)
    requires |ids| == ARRAYED_IDS
    ensures AllProper(r) && BlockEnds(r)
  {
    var var100 := ids[11];
    var var112 := ids[12];
    var label102 := ids[79];
    var label114 := ids[90];
    var res154 := ids[129];
    [
      [EncodeWord(2, OP_LABEL), label114],
      [EncodeWord(4, OP_LOAD), ty.v2intId, res154, var112],
      [EncodeWord(3, OP_STORE), var100, res154],
      [EncodeWord(2, OP_BRANCH), label102]
    ]
  }

  function Block102(ty: TypeInputs, c: Constants, functionType: Word, glslStd: Word, ids: seq<Word>): (r: seq<seq<Word>>)
    requires |ids| == ARRAYED_IDS
    ensures AllProper(r) && BlockEnds(r)
  {
    var var87 := ids[10];
    var var100 := ids[11];
    var label89 := ids[67];
    var label102 := ids[79];
    var res155 := ids[130];
    [
      [EncodeWord(2, OP_LABEL), label102],
      [EncodeWord(4, OP_LOAD), ty.v2intId, res155, var100],
      [EncodeWord(3, OP_STORE), var87, res155],
      [EncodeWord(2, OP_BRANCH), label89]
    ]
  }

  function Block89(ty: TypeInputs, c: Constants, functionType: Word, glslStd: Word, ids: seq<Word>): (r: seq<seq<Word>>)
    requires |ids| == ARRAYED_IDS
    ensures AllProper(r) && BlockEnds(r)
  {
    var face := ids[6];
    var st := ids[9];
    var var87 := ids[10];
    var label89 := ids[67];
    var res156 := ids[131];
    var res157 := ids[132];
    var res158 := ids[133];
    var res159 := ids[134];
    var res160 := ids[135];
    var res161 := ids[136];
    [
      [EncodeWord(2, OP_LABEL), label89],
      [EncodeWord(4, OP_LOAD), ty.v2intId, res156, var87],
      [EncodeWord(3, OP_STORE), st, res156],
      [EncodeWord(4, OP_LOAD), ty.v2intId, res157, st],
      [EncodeWord(4, OP_LOAD), ty.intId, res158, face],
      [EncodeWord(5, OP_COMPOSITE_EXTRACT), ty.intId, res159, res157, 0],
      [EncodeWord(5, OP_COMPOSITE_EXTRACT), ty.intId, res160, res157, 1],
      [EncodeWord(6, OP_COMPOSITE_CONSTRUCT), ty.v3intId, res161, res159, res160, res158],
      [EncodeWord(2, OP_RETURN_VALUE), res161]
    ]
  }
  /** Blocks 28, 29, 43, 44 and 54: the x and y tests, and the face of the x axis. */
  function Part1(ty: TypeInputs, c: Constants, functionType: Word, glslStd: Word, ids: seq<Word>): (r: seq<seq<Word>>)
    requires |ids| == ARRAYED_IDS
    ensures AllProper(r)
  {
    var b0 := Block28(ty, c, functionType, glslStd, ids);
    var b1 := Block29(ty, c, functionType, glslStd, ids);
    var b2 := Block43(ty, c, functionType, glslStd, ids);
    var b3 := Block44(ty, c, functionType, glslStd, ids);
    var b4 := Block54(ty, c, functionType, glslStd, ids);
    AllProperAppend(b0, b1);
    AllProperAppend(b0 + b1, b2);
    AllProperAppend(b0 + b1 + b2, b3);
    AllProperAppend(b0 + b1 + b2 + b3, b4);
    b0 + b1 + b2 + b3 + b4
  }

  /** Blocks 62, 65, 73, 66 and 55: the faces of the y and z axes, and their merges. */
  function Part2(ty: TypeInputs, c: Constants, functionType: Word, glslStd: Word, ids: seq<Word>): (r: seq<seq<Word>>)
    requires |ids| == ARRAYED_IDS
    ensures AllProper(r)
  {
    var b0 := Block62(ty, c, functionType, glslStd, ids);
    var b1 := Block65(ty, c, functionType, glslStd, ids);
    var b2 := Block73(ty, c, functionType, glslStd, ids);
    var b3 := Block66(ty, c, functionType, glslStd, ids);
    var b4 := Block55(ty, c, functionType, glslStd, ids);
    AllProperAppend(b0, b1);
    AllProperAppend(b0 + b1, b2);
    AllProperAppend(b0 + b1 + b2, b3);
    AllProperAppend(b0 + b1 + b2 + b3, b4);
    b0 + b1 + b2 + b3 + b4
  }

  /** Blocks 88, 97, 101, 109 and 113: the tests of faces 0 to 2, and the (s, t) of faces 0 to 2. */
  function Part3(ty: TypeInputs, c: Constants, functionType: Word, glslStd: Word, ids: seq<Word>): (r: seq<seq<Word>>)
    requires |ids| == ARRAYED_IDS
    ensures AllProper(r)
  {
    var b0 := Block88(ty, c, functionType, glslStd, ids);
    var b1 := Block97(ty, c, functionType, glslStd, ids);
    var b2 := Block101(ty, c, functionType, glslStd, ids);
    var b3 := Block109(ty, c, functionType, glslStd, ids);
    var b4 := Block113(ty, c, functionType, glslStd, ids);
    AllProperAppend(b0, b1);
    AllProperAppend(b0 + b1, b2);
    AllProperAppend(b0 + b1 + b2, b3);
    AllProperAppend(b0 + b1 + b2 + b3, b4);
    b0 + b1 + b2 + b3 + b4
  }

  /** Blocks 120, 124, 132, 136 and 144: the tests of faces 3 and 4, and the (s, t) of faces 3 to 5. */
  function Part4(ty: TypeInputs, c: Constants, functionType: Word, glslStd: Word, ids: seq<Word>): (r: seq<seq<Word>>)
    requires |ids| == ARRAYED_IDS
    ensures AllProper(r)
  {
    var b0 := Block120(ty, c, functionType, glslStd, ids);
    var b1 := Block124(ty, c, functionType, glslStd, ids);
    var b2 := Block132(ty, c, functionType, glslStd, ids);
    var b3 := Block136(ty, c, functionType, glslStd, ids);
    var b4 := Block144(ty, c, functionType, glslStd, ids);
    AllProperAppend(b0, b1);
    AllProperAppend(b0 + b1, b2);
    AllProperAppend(b0 + b1 + b2, b3);
    AllProperAppend(b0 + b1 + b2 + b3, b4);
    b0 + b1 + b2 + b3 + b4
  }

  /** Blocks 137, 125, 114, 102 and 89: the merges of (s, t), and the result. */
  function Part5(ty: TypeInputs, c: Constants, functionType: Word, glslStd: Word, ids: seq<Word>): (r: seq<seq<Word>>)
    requires |ids| == ARRAYED_IDS
    ensures AllProper(r)
  {
    var b0 := Block137(ty, c, functionType, glslStd, ids);
    var b1 := Block125(ty, c, functionType, glslStd, ids);
    var b2 := Block114(ty, c, functionType, glslStd, ids);
    var b3 := Block102(ty, c, functionType, glslStd, ids);
    var b4 := Block89(ty, c, functionType, glslStd, ids);
    AllProperAppend(b0, b1);
    AllProperAppend(b0 + b1, b2);
    AllProperAppend(b0 + b1 + b2, b3);
    AllProperAppend(b0 + b1 + b2 + b3, b4);
    b0 + b1 + b2 + b3 + b4
  }
  /** The helper's blocks after the entry block, and the function's end. */
  function ArrayedRest(ty: TypeInputs, c: Constants, functionType: Word, glslStd: Word, ids: seq<Word>): (r: seq<seq<Word>>)
    requires |ids| == ARRAYED_IDS
    ensures AllProper(r)
  {
    var p1 := Part1(ty, c, functionType, glslStd, ids);
    var p2 := Part2(ty, c, functionType, glslStd, ids);
    var p3 := Part3(ty, c, functionType, glslStd, ids);
    var p4 := Part4(ty, c, functionType, glslStd, ids);
    var p5 := Part5(ty, c, functionType, glslStd, ids);
    var end: seq<seq<Word>> := [[EncodeWord(1, OP_FUNCTION_END)]];
    AllProperAppend(p1, p2);
    AllProperAppend(p1 + p2, p3);
    AllProperAppend(p1 + p2 + p3, p4);
    AllProperAppend(p1 + p2 + p3 + p4, p5);
    AllProperAppend(p1 + p2 + p3 + p4 + p5, end);
    p1 + p2 + p3 + p4 + p5 + end
  }

  /** The helper's instructions. */
  function ArrayedWords(ty: TypeInputs, c: Constants, functionType: Word, glslStd: Word, ids: seq<Word>): seq<seq<Word>>
    requires |ids| == ARRAYED_IDS
  {
    Entry(ty, c, functionType, glslStd, ids) + ArrayedRest(ty, c, functionType, glslStd, ids)
  }

  /** Every instruction of the helper declares its own length: its words
      form a well-formed stream that a walk cuts back into exactly those
      instructions, the first of which is the `OpFunction` defining the
      first fresh id. */
  lemma ArrayedCounts(ty: TypeInputs, c: Constants, functionType: Word, glslStd: Word, ids: seq<Word>)
    requires |ids| == ARRAYED_IDS
    ensures var r := ArrayedWords(ty, c, functionType, glslStd, ids);
      AllProper(r) && WellFormed(Flatten(r)) && Instructions(Flatten(r)) == r
    ensures ArrayedWords(ty, c, functionType, glslStd, ids)[0] ==
              [EncodeWord(5, OP_FUNCTION), ty.v3intId, ids[0], FUNCTION_CONTROL_INLINE, functionType]
  {
    var e := Entry(ty, c, functionType, glslStd, ids);
    var rest := ArrayedRest(ty, c, functionType, glslStd, ids);
    AllProperAppend(e, rest);
    EmittedWellFormed(e + rest);
    assert (e + rest)[0] == e[0];
  }

  /** `image_cube_direction_to_arrayed_spv`: 137 fresh ids, the first of
      which is the function; the helper's words form a well-formed stream
      that opens with the `OpFunction` defining that id, returning a
      vector of three ints, of the given function type. */
  method ImageCubeDirectionToArrayedSpv(ib: Word, ty: TypeInputs, functionType: Word, c: Constants, glslStd: Word)
    returns (funcId: Word, spv: seq<Word>, newIb: Word)
    requires ib + ARRAYED_IDS <= MAX_WORD
    ensures funcId == ib && newIb == ib + ARRAYED_IDS
    ensures WellFormed(spv) && Instructions(spv) == ArrayedWords(ty, c, functionType, glslStd, Run(ib, ARRAYED_IDS))
    ensures Instructions(spv)[0] == [EncodeWord(5, OP_FUNCTION), ty.v3intId, funcId, FUNCTION_CONTROL_INLINE, functionType]
  {
    var ids;
    ids, newIb := AllocRun(ib, ARRAYED_IDS);
    funcId := ids[0];
    var r := ArrayedWords(ty, c, functionType, glslStd, ids);
    spv := Flatten(r);
    ArrayedCounts(ty, c, functionType, glslStd, ids);
  }

  // What the helper computes, on the integer direction (x, y, z) that the
  // parameter points at.

  /** The face: x's pair when |x| is at least |y| and, only then, at least
      |z|; otherwise y's pair when |y| is greater than |x| and, only then,
      at least |z|; otherwise z's. Both tests are made before the choice.
      Within a pair the even face goes to a positive component. */
  function ArrayedFace(x: int, y: int, z: int): (face: int)
    ensures 0 <= face < 6
  {
    var ax, ay, az := Axis.Abs(x), Axis.Abs(y), Axis.Abs(z);
    var xMajor := if ax >= ay then ax >= az else false;
    var yMajor := if ay > ax then ay >= az else false;
    if xMajor then (if x > 0 then 0 else 1)
    else if yMajor then (if y > 0 then 2 else 3)
    else if z > 0 then 4 else 5
  }

  /** The y test is strict here and not in the axis helper, but the x test
      comes first, so the two helpers pick the same face: the first axis
      of largest magnitude, on the side its sign says. */
  lemma ArrayedFaceAgrees(x: int, y: int, z: int)
    ensures ArrayedFace(x, y, z) == Axis.AxisFace(x, y, z)
    ensures Axis.FirstMajor(x, y, z, ArrayedFace(x, y, z) / 2)
  {
    Axis.AxisFaceMajor(x, y, z);
  }

  /** The coordinates on face `face`: faces 0 to 4 are tested in turn and
      any other face is taken as 5. */
  function FaceCoordinates(x: int, y: int, z: int, face: int): (int, int)
  {
    if face == 0 then (-z, -y)
    else if face == 1 then (z, -y)
    else if face == 2 then (x, z)
    else if face == 3 then (x, -z)
    else if face == 4 then (x, -y)
    else (-x, -y)
  }

  /** The helper's result: (s, t) on the face, then the face. */
  function ArrayedCoordinates(x: int, y: int, z: int): (int, int, int)
  {
    var face := ArrayedFace(x, y, z);
    var (s, t) := FaceCoordinates(x, y, z, face);
    (s, t, face)
  }

  /** The direction whose coordinates on face `face` are (s, t) and whose
      component along the face's axis has magnitude `m`. */
  function Unproject(s: int, t: int, face: int, m: int): (int, int, int)
  {
    if face == 0 then (m, -t, -s)
    else if face == 1 then (-m, -t, s)
    else if face == 2 then (s, m, t)
    else if face == 3 then (s, -m, -t)
    else if face == 4 then (s, -t, m)
    else (-s, -t, -m)
  }

  /** The coordinates lose nothing but the magnitude of the major
      component: with it, the direction comes back. */
  lemma ArrayedRoundTrip(x: int, y: int, z: int)
    ensures var (s, t, face) := ArrayedCoordinates(x, y, z);
      Unproject(s, t, face, Axis.Abs(Axis.Component(x, y, z, face / 2))) == (x, y, z)
  {
  }

  /** The coordinates lie on the face: neither exceeds the major
      component in magnitude. */
  lemma ArrayedOnFace(x: int, y: int, z: int)
    ensures var (s, t, face) := ArrayedCoordinates(x, y, z);
      var m: int := Axis.Abs(Axis.Component(x, y, z, face / 2));
      -m <= s <= m && -m <= t <= m
  {
    ArrayedFaceAgrees(x, y, z);
    var face := ArrayedFace(x, y, z);
    var m: int := Axis.Abs(Axis.Component(x, y, z, face / 2));
    assert Axis.Abs(Axis.Component(x, y, z, 0)) <= m;
    assert Axis.Abs(Axis.Component(x, y, z, 1)) <= m;
    assert Axis.Abs(Axis.Component(x, y, z, 2)) <= m;
    assert -m <= x <= m && -m <= y <= m && -m <= z <= m;
  }
}
