/** The generator of src/isnanisinfpatch/shared.rs: the declarations the
    NaN and infinity helpers share, a function type from a pointer to a
    float to a bool and four unsigned constants, the shift and the masks
    that cut an IEEE 754 single into its exponent and fraction fields. */
module NanInfShared {
  import opened Words
  import opened Spv
  import opened Stream
  import opened Layout
  import opened Ids

  /** The type ids the declarations use, declared by the caller. */
  datatype SharedInputs = SharedInputs(boolId: Word, uintId: Word, doubleId: Word,
                                       ptrFunctionFloatId: Word, ptrFunctionUintId: Word)

  /** The fresh ids the generator returns. */
  datatype SharedOutputs = SharedOutputs(functionType: Word, uint23: Word, uint255: Word,
                                         uint8388607: Word, uint0: Word)

  /** The shift of the exponent field of a single, the mask of that field
      once shifted down (eight bits) and the mask of the fraction field
      (the low 23 bits), as the bit patterns the helper computes with. */
  const EXPONENT_SHIFT_BITS: bv32 := 23
  const EXPONENT_MASK_FIELD: bv32 := 0xFF
  const FRACTION_MASK_FIELD: bv32 := 0x7F_FFFF

  /** The same three, as the values of the declared constants. */
  const EXPONENT_SHIFT: Word := EXPONENT_SHIFT_BITS as int
  const EXPONENT_MASK: Word := EXPONENT_MASK_FIELD as int
  const FRACTION_MASK: Word := FRACTION_MASK_FIELD as int

  /** The constants' ids come right after the result slot in the source's
      `OpConstant` instructions, ahead of the type. */
  const ID_FIRST_AS_WRITTEN := true

  /** An `OpConstant` of `ty` defining `id`, with the id in the result
      slot (word 2) or, when `idFirst`, in the type slot (word 1). */
  function Constant(idFirst: bool, ty: Word, id: Word, value: Word): seq<Word>
  {
    if idFirst then [EncodeWord(4, OP_CONSTANT), id, ty, value]
    else [EncodeWord(4, OP_CONSTANT), ty, id, value]
  }

  /** The five declarations, with `ids` the run of fresh ids in the order
      of the `inc` calls. */
  function SharedWords(idFirst: bool, inputs: SharedInputs, ids: seq<Word>): seq<seq<Word>>
    requires |ids| == 5
  {
    [
      [EncodeWord(4, OP_TYPE_FUNCTION), ids[0], inputs.boolId, inputs.ptrFunctionFloatId],
      Constant(idFirst, inputs.uintId, ids[1], EXPONENT_SHIFT),
      Constant(idFirst, inputs.uintId, ids[2], EXPONENT_MASK),
      Constant(idFirst, inputs.uintId, ids[3], FRACTION_MASK),
      Constant(idFirst, inputs.uintId, ids[4], 0)
    ]
  }

  /** The record the generator returns: the fresh ids in order. */
  function OutputsOf(ids: seq<Word>): SharedOutputs
    requires |ids| == 5
  {
    SharedOutputs(ids[0], ids[1], ids[2], ids[3], ids[4])
  }

  /** In either operand order, the five declarations state their own
      lengths, twenty words in all, and each constant holds the value its
      output is named for. With the id in the result slot each output is
      declared as that constant of the uint type; with the id first, each
      declares the uint type's id, typed by the output. */
  lemma SharedDeclared(idFirst: bool, inputs: SharedInputs, ids: seq<Word>)
    requires |ids| == 5
    ensures var r := SharedWords(idFirst, inputs, ids);
            var o := OutputsOf(ids);
      |r| == 5 && AllProper(r) && |Flatten(r)| == 20 &&
      r[0] == [EncodeWord(4, OP_TYPE_FUNCTION), o.functionType, inputs.boolId, inputs.ptrFunctionFloatId] &&
      (!idFirst ==>
        DeclaresConstant(r[1], inputs.uintId, o.uint23, 23) &&
        DeclaresConstant(r[2], inputs.uintId, o.uint255, 255) &&
        DeclaresConstant(r[3], inputs.uintId, o.uint8388607, 8388607) &&
        DeclaresConstant(r[4], inputs.uintId, o.uint0, 0)) &&
      (idFirst ==>
        DeclaresConstant(r[1], o.uint23, inputs.uintId, 23) &&
        DeclaresConstant(r[2], o.uint255, inputs.uintId, 255) &&
        DeclaresConstant(r[3], o.uint8388607, inputs.uintId, 8388607) &&
        DeclaresConstant(r[4], o.uint0, inputs.uintId, 0))
  {
    var r := SharedWords(idFirst, inputs, ids);
    FlattenLength(r, 4);
  }

  /** With the fresh run starting at `ib` and the input types below it, the
      corrected declarations are laid out as section 2.3 of the SPIR-V
      specification says. */
  lemma SharedLaidOut(inputs: SharedInputs, ib: Word, ids: seq<Word>)
    requires ids == Run(ib, 5)
    requires inputs.boolId < ib && inputs.uintId < ib && inputs.ptrFunctionFloatId < ib
    ensures AllLaidOut(SharedWords(false, inputs, ids), ib)
  {
  }

  /** As written, every constant has its fresh id in the type slot and the
      uint type in the result slot: a reader takes each one for a
      redefinition of the uint type's id, typed by a fresh id nothing
      declares. No constant is laid out as section 2.3 says. */
  lemma SharedAsWrittenMisplaced(inputs: SharedInputs, ib: Word, ids: seq<Word>)
    requires ids == Run(ib, 5) && inputs.uintId < ib
    ensures var r := SharedWords(ID_FIRST_AS_WRITTEN, inputs, ids);
      DeclaresConstant(r[1], ids[1], inputs.uintId, 23) &&
      DeclaresConstant(r[2], ids[2], inputs.uintId, 255) &&
      DeclaresConstant(r[3], ids[3], inputs.uintId, 8388607) &&
      DeclaresConstant(r[4], ids[4], inputs.uintId, 0) &&
      forall k :: 1 <= k < 5 ==> !LaidOut(r[k], ib)
  {
    var r := SharedWords(ID_FIRST_AS_WRITTEN, inputs, ids);
    forall k | 1 <= k < 5
      ensures !LaidOut(r[k], ib)
    {
      assert r[k][1] == ids[k] == ib + k;
    }
  }

  /** `nan_inf_shared`: five fresh ids, returned in the order of their
      declarations; the declarations, emitted as written with each
      constant's id ahead of its type, form a well-formed stream of twenty
      words, and none of the four constants is laid out as section 2.3 of
      the SPIR-V specification says when the uint type precedes the run. */
  method NanInfSharedSpv(ib: Word, inputs: SharedInputs) returns (outputs: SharedOutputs, spv: seq<Word>, newIb: Word)
    requires ib + 5 <= MAX_WORD
    ensures outputs == SharedOutputs(ib, ib + 1, ib + 2, ib + 3, ib + 4) && newIb == ib + 5
    ensures WellFormed(spv) && |spv| == 20
    ensures var r := Instructions(spv);
      |r| == 5 &&
      r[0] == [EncodeWord(4, OP_TYPE_FUNCTION), outputs.functionType, inputs.boolId, inputs.ptrFunctionFloatId] &&
      DeclaresConstant(r[1], outputs.uint23, inputs.uintId, 23) &&
      DeclaresConstant(r[2], outputs.uint255, inputs.uintId, 255) &&
      DeclaresConstant(r[3], outputs.uint8388607, inputs.uintId, 8388607) &&
      DeclaresConstant(r[4], outputs.uint0, inputs.uintId, 0) &&
      (inputs.uintId < ib ==> forall k :: 1 <= k < 5 ==> !LaidOut(r[k], ib))
  {
    var ids;
    ids, newIb := AllocRun(ib, 5);
    outputs := OutputsOf(ids);
    var r := SharedWords(ID_FIRST_AS_WRITTEN, inputs, ids);
    spv := Flatten(r);
    SharedDeclared(ID_FIRST_AS_WRITTEN, inputs, ids);
    EmittedWellFormed(r);
    if inputs.uintId < ib {
      SharedAsWrittenMisplaced(inputs, ib, ids);
    }
  }
}
