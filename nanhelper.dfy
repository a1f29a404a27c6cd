/** The generator of src/isnanisinfpatch/isnan_isinf.rs: a helper function
    that takes a pointer to a float and answers whether the float is a NaN
    (or an infinity) by inspecting its bits. The two variants differ in the
    opcode of one comparison. The instructions are transcribed as written,
    with `ids` the run of eighteen fresh ids in the order of the `inc`
    calls; the signature's input records are defined nowhere else in the
    source, so their fields are taken from the way the body reads them. */
module IsNanIsInfHelper {
  import opened Words
  import opened Spv
  import opened Stream
  import opened Layout
  import opened Ids
  import opened NanInfShared

  /** Which helper to emit. */
  datatype Kind = IsNan | IsInf

  /** The types the helper's body uses. */
  datatype HelperTypeInputs = HelperTypeInputs(uintId: Word, ptrUintId: Word)

  /** The types of the helper's result and parameter. */
  datatype HelperFunctionInputs = HelperFunctionInputs(boolId: Word, floatId: Word, ptrFloatId: Word)

  /** The four constants `nan_inf_shared` declares. */
  datatype SharedConstants = SharedConstants(uint23: Word, uint255: Word, uint8388607: Word, uint0: Word)

  /** The helper allocates eighteen ids: the function, its parameter, its
      label, three variables and twelve intermediate results. */
  const HELPER_IDS: nat := 18

  /** The index of the fraction comparison among the helper's
      instructions, and the offset of its first word in the stream, as
      written. */
  const COMPARE_INDEX: nat := 19
  const COMPARE_OFFSET_AS_WRITTEN: nat := 68

  /** The opcode of the fraction comparison, as written: `OpIEqual` for
      the NaN test and `OpINotEqual` for the infinity test. */
  function CompareOpAsWritten(kind: Kind): HalfWord
  {
    match kind
    case IsNan => OP_I_EQUAL
    case IsInf => OP_I_NOT_EQUAL
  }

  /** The opcode each test needs: a NaN has a nonzero fraction, an
      infinity a zero one. */
  function CompareOp(kind: Kind): HalfWord
  {
    match kind
    case IsNan => OP_I_NOT_EQUAL
    case IsInf => OP_I_EQUAL
  }

  // The helper's instructions as written, in three parts around the
  // fraction comparison. Every instruction with a result puts the result
  // id first, the ones with a type put it after the operands or leave it
  // out, and the variables have no storage class.

  /** The function header, its label, the variables and the bit cast. */
  function HeadAsWritten(ty: HelperTypeInputs, inputs: HelperFunctionInputs, functionType: Word, ids: seq<Word>): (r: seq<seq<Word>>)
    requires |ids| == HELPER_IDS
    ensures |r| == 9 && AllProper(r) && |Flatten(r)| == 30
  {
    var isNan, x, res1, bits, exp, frac := ids[0], ids[1], ids[2], ids[3], ids[4], ids[5];
    var res2, res3 := ids[6], ids[7];
    var r := [
      [EncodeWord(5, OP_FUNCTION), inputs.boolId, isNan, FUNCTION_CONTROL_INLINE, functionType],
      [EncodeWord(3, OP_FUNCTION_PARAMETER), x, inputs.ptrFloatId],
      [EncodeWord(2, OP_LABEL), res1],
      [EncodeWord(3, OP_VARIABLE), bits, ty.ptrUintId],
      [EncodeWord(3, OP_VARIABLE), exp, ty.ptrUintId],
      [EncodeWord(3, OP_VARIABLE), frac, ty.ptrUintId],
      [EncodeWord(4, OP_LOAD), res2, x, inputs.floatId],
      [EncodeWord(4, OP_BITCAST), res3, res2, ty.uintId],
      [EncodeWord(3, OP_STORE), bits, res3]
    ];
    FlattenLength9(r);
    r
  }

  /** The exponent and fraction fields, stored, and the exponent test. */
  function FieldsAsWritten(ty: HelperTypeInputs, shared: SharedConstants, ids: seq<Word>): (r: seq<seq<Word>>)
    requires |ids| == HELPER_IDS
    ensures |r| == 10 && AllProper(r) && |Flatten(r)| == 38
  {
    var bits, exp, frac := ids[3], ids[4], ids[5];
    var res4, res5, res6, res7, res8, res9, res10, res11 := ids[8], ids[9], ids[10], ids[11], ids[12], ids[13], ids[14], ids[15];
    var r := [
      [EncodeWord(4, OP_LOAD), res4, bits, ty.uintId],
      [EncodeWord(4, OP_SHIFT_RIGHT_LOGICAL), res5, res4, shared.uint23],
      [EncodeWord(4, OP_BITWISE_AND), res6, res5, shared.uint255],
      [EncodeWord(3, OP_STORE), exp, res6],
      [EncodeWord(4, OP_LOAD), res7, bits, ty.uintId],
      [EncodeWord(4, OP_BITWISE_AND), res8, res7, shared.uint8388607],
      [EncodeWord(3, OP_STORE), frac, res8],
      [EncodeWord(4, OP_LOAD), res9, exp, ty.uintId],
      [EncodeWord(4, OP_I_EQUAL), res10, res9, shared.uint255],
      [EncodeWord(4, OP_LOAD), res11, frac, ty.uintId]
    ];
    FlattenLength10(r);
    r
  }

  /** The fraction comparison, with opcode `op`. */
  function CompareAsWritten(op: HalfWord, shared: SharedConstants, ids: seq<Word>): seq<Word>
    requires |ids| == HELPER_IDS
  {
    [EncodeWord(4, op), ids[16], ids[15], shared.uint0]
  }

  /** The conjunction, the return and the function's end. */
  function TailAsWritten(ids: seq<Word>): (r: seq<seq<Word>>)
    requires |ids| == HELPER_IDS
    ensures |r| == 3 && AllProper(r)
  {
    var res10, res12, res13 := ids[14], ids[16], ids[17];
    [
      [EncodeWord(4, OP_LOGICAL_AND), res13, res10, res12],
      [EncodeWord(2, OP_RETURN_VALUE), res13],
      [EncodeWord(1, OP_FUNCTION_END)]
    ]
  }

  /** The helper's instructions as written, with the comparison opcode
      `op` left open. */
  function HelperWordsAsWritten(op: HalfWord, ty: HelperTypeInputs, inputs: HelperFunctionInputs,
                                functionType: Word, shared: SharedConstants, ids: seq<Word>): seq<seq<Word>>
    requires |ids| == HELPER_IDS
  {
    HeadAsWritten(ty, inputs, functionType, ids) + FieldsAsWritten(ty, shared, ids) +
    [CompareAsWritten(op, shared, ids)] + TailAsWritten(ids)
  }

  /** Every instruction as written declares its own length: the helper is
      a well-formed stream, 23 instructions long, whatever the opcode. */
  lemma HelperAsWrittenCounts(op: HalfWord, ty: HelperTypeInputs, inputs: HelperFunctionInputs,
                              functionType: Word, shared: SharedConstants, ids: seq<Word>)
    requires |ids| == HELPER_IDS
    ensures var r := HelperWordsAsWritten(op, ty, inputs, functionType, shared, ids);
      |r| == 23 && AllProper(r) && WellFormed(Flatten(r))
  {
    EmittedWellFormed(HelperWordsAsWritten(op, ty, inputs, functionType, shared, ids));
  }

  /** The two variants as written differ in exactly one word of the
      stream: the first word of the fraction comparison, which carries
      `OpIEqual` in the NaN helper and `OpINotEqual` in the infinity one. */
  lemma KindsDifferInOneWord(ty: HelperTypeInputs, inputs: HelperFunctionInputs,
                             functionType: Word, shared: SharedConstants, ids: seq<Word>)
    requires |ids| == HELPER_IDS
    ensures var nan := Flatten(HelperWordsAsWritten(CompareOpAsWritten(IsNan), ty, inputs, functionType, shared, ids));
            var inf := Flatten(HelperWordsAsWritten(CompareOpAsWritten(IsInf), ty, inputs, functionType, shared, ids));
      |nan| == |inf| > COMPARE_OFFSET_AS_WRITTEN &&
      nan[COMPARE_OFFSET_AS_WRITTEN] == EncodeWord(4, OP_I_EQUAL) &&
      inf[COMPARE_OFFSET_AS_WRITTEN] == EncodeWord(4, OP_I_NOT_EQUAL) &&
      nan == inf[COMPARE_OFFSET_AS_WRITTEN := EncodeWord(4, OP_I_EQUAL)]
  {
    var head := HeadAsWritten(ty, inputs, functionType, ids) + FieldsAsWritten(ty, shared, ids);
    FlattenAppend(HeadAsWritten(ty, inputs, functionType, ids), FieldsAsWritten(ty, shared, ids));
    DifferInFirstWord(head, CompareAsWritten(OP_I_EQUAL, shared, ids), CompareAsWritten(OP_I_NOT_EQUAL, shared, ids),
                      TailAsWritten(ids));
  }

  /** The head as written, instruction by instruction. */
  lemma HeadAsWrittenMisplaced(ty: HelperTypeInputs, inputs: HelperFunctionInputs,
                               functionType: Word, ib: Word, ids: seq<Word>)
    requires ids == Run(ib, HELPER_IDS) && inputs.boolId < ib
    ensures var h := HeadAsWritten(ty, inputs, functionType, ids);
      forall k :: 0 <= k < 9 ==> (LaidOut(h[k], ib) <==> k in {0, 2, 8})
  {
  }

  /** The rest as written, instruction by instruction. */
  lemma RestAsWrittenMisplaced(op: HalfWord, ty: HelperTypeInputs, shared: SharedConstants, ib: Word, ids: seq<Word>)
    requires ids == Run(ib, HELPER_IDS)
    requires op == OP_I_EQUAL || op == OP_I_NOT_EQUAL
    ensures var f := FieldsAsWritten(ty, shared, ids);
      forall k :: 0 <= k < 10 ==> (LaidOut(f[k], ib) <==> k in {3, 6})
    ensures !LaidOut(CompareAsWritten(op, shared, ids), ib)
    ensures var t := TailAsWritten(ids);
      !LaidOut(t[0], ib) && LaidOut(t[1], ib) && LaidOut(t[2], ib)
  {
  }

  /** As written, with the fresh run starting at `ib`, only the function
      header, the label, the stores, the return and the function's end are
      laid out as section 2.3 of the SPIR-V specification says; every other
      instruction, the comparison included, puts a fresh id where its
      result type belongs. */
  lemma HelperAsWrittenMisplaced(op: HalfWord, ty: HelperTypeInputs, inputs: HelperFunctionInputs,
                                 functionType: Word, shared: SharedConstants, ib: Word, ids: seq<Word>)
    requires ids == Run(ib, HELPER_IDS) && inputs.boolId < ib
    requires op == OP_I_EQUAL || op == OP_I_NOT_EQUAL
    ensures var r := HelperWordsAsWritten(op, ty, inputs, functionType, shared, ids);
      |r| == 23 && forall k :: 0 <= k < 23 ==> (LaidOut(r[k], ib) <==> k in {0, 2, 8, 12, 15, 21, 22})
  {
    var h := HeadAsWritten(ty, inputs, functionType, ids);
    var f := FieldsAsWritten(ty, shared, ids);
    var t := TailAsWritten(ids);
    var r := HelperWordsAsWritten(op, ty, inputs, functionType, shared, ids);
    HeadAsWrittenMisplaced(ty, inputs, functionType, ib, ids);
    RestAsWrittenMisplaced(op, ty, shared, ib, ids);
    forall k | 0 <= k < 23
      ensures LaidOut(r[k], ib) <==> k in {0, 2, 8, 12, 15, 21, 22}
    {
      if k < 9 {
        assert r[k] == h[k];
      } else if k < 19 {
        assert r[k] == f[k - 9];
      } else if k == 19 {
        assert r[k] == CompareAsWritten(op, shared, ids);
      } else {
        assert r[k] == t[k - 20];
      }
    }
  }

  // The helper's instructions laid out as section 2.3 says: result type,
  // then result id, four words for a variable with its storage class and
  // five for a binary operation.

  /** The function header, its label, the variables and the bit cast. */
  function Head(ty: HelperTypeInputs, inputs: HelperFunctionInputs, functionType: Word, ids: seq<Word>): (r: seq<seq<Word>>)
    requires |ids| == HELPER_IDS
    ensures |r| == 9 && AllProper(r) && |Flatten(r)| == 33
  {
    var isNan, x, res1, bits, exp, frac := ids[0], ids[1], ids[2], ids[3], ids[4], ids[5];
    var res2, res3 := ids[6], ids[7];
    var r := [
      [EncodeWord(5, OP_FUNCTION), inputs.boolId, isNan, FUNCTION_CONTROL_INLINE, functionType],
      [EncodeWord(3, OP_FUNCTION_PARAMETER), inputs.ptrFloatId, x],
      [EncodeWord(2, OP_LABEL), res1],
      [EncodeWord(4, OP_VARIABLE), ty.ptrUintId, bits, STORAGE_CLASS_FUNCTION],
      [EncodeWord(4, OP_VARIABLE), ty.ptrUintId, exp, STORAGE_CLASS_FUNCTION],
      [EncodeWord(4, OP_VARIABLE), ty.ptrUintId, frac, STORAGE_CLASS_FUNCTION],
      [EncodeWord(4, OP_LOAD), inputs.floatId, res2, x],
      [EncodeWord(4, OP_BITCAST), ty.uintId, res3, res2],
      [EncodeWord(3, OP_STORE), bits, res3]
    ];
    FlattenLength9(r);
    r
  }

  /** The exponent and fraction fields, stored, and the exponent test. */
  function Fields(ty: HelperTypeInputs, inputs: HelperFunctionInputs, shared: SharedConstants, ids: seq<Word>): (r: seq<seq<Word>>)
    requires |ids| == HELPER_IDS
    ensures |r| == 10 && AllProper(r) && |Flatten(r)| == 42
  {
    var bits, exp, frac := ids[3], ids[4], ids[5];
    var res4, res5, res6, res7, res8, res9, res10, res11 := ids[8], ids[9], ids[10], ids[11], ids[12], ids[13], ids[14], ids[15];
    var r := [
      [EncodeWord(4, OP_LOAD), ty.uintId, res4, bits],
      [EncodeWord(5, OP_SHIFT_RIGHT_LOGICAL), ty.uintId, res5, res4, shared.uint23],
      [EncodeWord(5, OP_BITWISE_AND), ty.uintId, res6, res5, shared.uint255],
      [EncodeWord(3, OP_STORE), exp, res6],
      [EncodeWord(4, OP_LOAD), ty.uintId, res7, bits],
      [EncodeWord(5, OP_BITWISE_AND), ty.uintId, res8, res7, shared.uint8388607],
      [EncodeWord(3, OP_STORE), frac, res8],
      [EncodeWord(4, OP_LOAD), ty.uintId, res9, exp],
      [EncodeWord(5, OP_I_EQUAL), inputs.boolId, res10, res9, shared.uint255],
      [EncodeWord(4, OP_LOAD), ty.uintId, res11, frac]
    ];
    FlattenLength10(r);
    r
  }

  /** The fraction comparison, with opcode `op`. */
  function Compare(op: HalfWord, inputs: HelperFunctionInputs, shared: SharedConstants, ids: seq<Word>): seq<Word>
    requires |ids| == HELPER_IDS
  {
    [EncodeWord(5, op), inputs.boolId, ids[16], ids[15], shared.uint0]
  }

  /** The conjunction, the return and the function's end. */
  function Tail(inputs: HelperFunctionInputs, ids: seq<Word>): (r: seq<seq<Word>>)
    requires |ids| == HELPER_IDS
    ensures |r| == 3 && AllProper(r)
  {
    var res10, res12, res13 := ids[14], ids[16], ids[17];
    [
      [EncodeWord(5, OP_LOGICAL_AND), inputs.boolId, res13, res10, res12],
      [EncodeWord(2, OP_RETURN_VALUE), res13],
      [EncodeWord(1, OP_FUNCTION_END)]
    ]
  }

  /** The offset of the fraction comparison in the laid-out helper. */
  const COMPARE_OFFSET: nat := 75

  /** The helper laid out as section 2.3 says, with the comparison opcode
      `op` left open. */
  function HelperWords(op: HalfWord, ty: HelperTypeInputs, inputs: HelperFunctionInputs,
                       functionType: Word, shared: SharedConstants, ids: seq<Word>): seq<seq<Word>>
    requires |ids| == HELPER_IDS
  {
    Head(ty, inputs, functionType, ids) + Fields(ty, inputs, shared, ids) +
    [Compare(op, inputs, shared, ids)] + Tail(inputs, ids)
  }

  /** Laid out, the helper is 23 instructions that each declare their own
      length, a well-formed stream that a walk cuts back into them. */
  lemma HelperCounts(op: HalfWord, ty: HelperTypeInputs, inputs: HelperFunctionInputs,
                     functionType: Word, shared: SharedConstants, ids: seq<Word>)
    requires |ids| == HELPER_IDS
    ensures var r := HelperWords(op, ty, inputs, functionType, shared, ids);
      |r| == 23 && AllProper(r) && WellFormed(Flatten(r)) && Instructions(Flatten(r)) == r
  {
    var h := Head(ty, inputs, functionType, ids);
    var f := Fields(ty, inputs, shared, ids);
    var c := [Compare(op, inputs, shared, ids)];
    var t := Tail(inputs, ids);
    AllProperAppend(h, f);
    AllProperAppend(h + f, c);
    AllProperAppend(h + f + c, t);
    EmittedWellFormed(h + f + c + t);
  }

  /** With the fresh run starting at `ib` and the types below it, every
      instruction of the laid-out helper is laid out as section 2.3 says. */
  lemma HelperLaidOut(op: HalfWord, ty: HelperTypeInputs, inputs: HelperFunctionInputs,
                      functionType: Word, shared: SharedConstants, ib: Word, ids: seq<Word>)
    requires ids == Run(ib, HELPER_IDS)
    requires op == OP_I_EQUAL || op == OP_I_NOT_EQUAL
    requires ty.uintId < ib && ty.ptrUintId < ib && inputs.boolId < ib && inputs.floatId < ib && inputs.ptrFloatId < ib
    ensures AllLaidOut(HelperWords(op, ty, inputs, functionType, shared, ids), ib)
  {
    var h := Head(ty, inputs, functionType, ids);
    var f := Fields(ty, inputs, shared, ids);
    var c := [Compare(op, inputs, shared, ids)];
    var t := Tail(inputs, ids);
    assert AllLaidOut(h, ib);
    assert AllLaidOut(f, ib);
    assert AllLaidOut(c, ib);
    assert AllLaidOut(t, ib);
    AllLaidOutAppend(h, f, ib);
    AllLaidOutAppend(h + f, c, ib);
    AllLaidOutAppend(h + f + c, t, ib);
  }

  /** Laid out, the two variants still differ in exactly one word, the
      comparison's opcode. */
  lemma KindsDifferInOneWordLaidOut(ty: HelperTypeInputs, inputs: HelperFunctionInputs,
                                    functionType: Word, shared: SharedConstants, ids: seq<Word>)
    requires |ids| == HELPER_IDS
    ensures var nan := Flatten(HelperWords(CompareOp(IsNan), ty, inputs, functionType, shared, ids));
            var inf := Flatten(HelperWords(CompareOp(IsInf), ty, inputs, functionType, shared, ids));
      |nan| == |inf| > COMPARE_OFFSET &&
      nan[COMPARE_OFFSET] == EncodeWord(5, OP_I_NOT_EQUAL) &&
      inf[COMPARE_OFFSET] == EncodeWord(5, OP_I_EQUAL) &&
      nan == inf[COMPARE_OFFSET := EncodeWord(5, OP_I_NOT_EQUAL)]
  {
    var head := Head(ty, inputs, functionType, ids) + Fields(ty, inputs, shared, ids);
    FlattenAppend(Head(ty, inputs, functionType, ids), Fields(ty, inputs, shared, ids));
    DifferInFirstWord(head, Compare(OP_I_NOT_EQUAL, inputs, shared, ids), Compare(OP_I_EQUAL, inputs, shared, ids),
                      Tail(inputs, ids));
  }

  // What the helper computes on the bits of its argument: the exponent
  // field, shifted down and masked, compared with 255, and the fraction
  // field, masked, compared with 0 by the opcode `op`. The shift and the
  // masks are the constants `nan_inf_shared` declares
  // (NanInfShared.EXPONENT_SHIFT_BITS and the two masks).

  function ExponentField(bits: bv32): bv32
  {
    (bits >> EXPONENT_SHIFT_BITS) & EXPONENT_MASK_FIELD
  }

  function FractionField(bits: bv32): bv32
  {
    bits & FRACTION_MASK_FIELD
  }

  /** The helper's result on the bits `bits`, for the comparison `op`. */
  predicate HelperResult(op: HalfWord, bits: bv32)
    requires op == OP_I_EQUAL || op == OP_I_NOT_EQUAL
  {
    ExponentField(bits) == EXPONENT_MASK_FIELD &&
    (if op == OP_I_EQUAL then FractionField(bits) == 0 else FractionField(bits) != 0)
  }

  // The classification of section 3.4 of IEEE 754-2019 for binary32: with
  // the sign bit cleared, the bits of an infinity are exactly 0x7F800000,
  // and those of a NaN are greater.

  const INFINITY_BITS: bv32 := 0x7F80_0000
  const MAGNITUDE_MASK: bv32 := 0x7FFF_FFFF

  predicate IsNaNBits(bits: bv32)
  {
    bits & MAGNITUDE_MASK > INFINITY_BITS
  }

  predicate IsInfBits(bits: bv32)
  {
    bits & MAGNITUDE_MASK == INFINITY_BITS
  }

  /** With the comparison each test needs, the NaN helper answers true
      exactly on NaNs and the infinity helper exactly on infinities. */
  lemma HelperClassifies(bits: bv32)
    ensures HelperResult(CompareOp(IsNan), bits) <==> IsNaNBits(bits)
    ensures HelperResult(CompareOp(IsInf), bits) <==> IsInfBits(bits)
  {
  }

  /** As written, the two helpers are swapped: the NaN helper answers
      true exactly on infinities and the infinity helper exactly on
      NaNs. */
  lemma HelperAsWrittenSwapped(bits: bv32)
    ensures HelperResult(CompareOpAsWritten(IsNan), bits) <==> IsInfBits(bits)
    ensures HelperResult(CompareOpAsWritten(IsInf), bits) <==> IsNaNBits(bits)
  {
  }

  /** The quiet NaN 0x7FC00000 is a NaN that the NaN helper as written
      rejects. */
  lemma AsWrittenMissesQuietNaN()
    ensures IsNaNBits(0x7FC0_0000) && !HelperResult(CompareOpAsWritten(IsNan), 0x7FC0_0000)
  {
  }

  /** `is_nan_is_inf_spv`: eighteen fresh ids, the first of which is the
      function; the helper as written, with the comparison the source
      picks for the kind, is a well-formed stream of 23 instructions whose
      `OpFunction` defines that id, whose fraction comparison carries that
      opcode, and of which, the types being declared ahead of the run, only
      seven are laid out as section 2.3 of the SPIR-V specification says. */
  method IsNanIsInfSpv(ib: Word, kind: Kind, ty: HelperTypeInputs, inputs: HelperFunctionInputs,
                       functionType: Word, shared: SharedConstants)
    returns (isNan: Word, spv: seq<Word>, newIb: Word)
    requires ib + HELPER_IDS <= MAX_WORD
    ensures isNan == ib && newIb == ib + HELPER_IDS
    ensures spv == Flatten(HelperWordsAsWritten(CompareOpAsWritten(kind), ty, inputs, functionType, shared, Run(ib, HELPER_IDS)))
    ensures WellFormed(spv) && |spv| > COMPARE_OFFSET_AS_WRITTEN && spv[2] == isNan
    ensures spv[COMPARE_OFFSET_AS_WRITTEN] == EncodeWord(4, CompareOpAsWritten(kind))
    ensures var r := Instructions(spv);
      |r| == 23 &&
      (inputs.boolId < ib ==> forall k :: 0 <= k < 23 ==> (LaidOut(r[k], ib) <==> k in {0, 2, 8, 12, 15, 21, 22}))
  {
    var ids;
    ids, newIb := AllocRun(ib, HELPER_IDS);
    isNan := ids[0];
    var r := HelperWordsAsWritten(CompareOpAsWritten(kind), ty, inputs, functionType, shared, ids);
    spv := Flatten(r);
    HelperAsWrittenCounts(CompareOpAsWritten(kind), ty, inputs, functionType, shared, ids);
    EmittedWellFormed(r);
    KindsDifferInOneWord(ty, inputs, functionType, shared, ids);
    assert r[0] == HeadAsWritten(ty, inputs, functionType, ids)[0];
    assert spv == r[0] + Flatten(r[1..]);
    if inputs.boolId < ib {
      HelperAsWrittenMisplaced(CompareOpAsWritten(kind), ty, inputs, functionType, shared, ib, ids);
    }
  }
}
