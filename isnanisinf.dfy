/** The pass skeleton of src/isnanisinfpatch.rs: check the header, walk
    the body once recording the offsets of six opcodes, return the module
    untouched when it uses neither `OpIsNan` nor `OpIsInf`, and otherwise
    run the edit engine. No step between the scan and the edit engine is
    written yet in the source, so no id is allocated and nothing is
    queued: the engine only erases `OpNop` instructions and puts the
    header, id bound unchanged, back in front. */
module IsNanIsInfPatch {
  import opened Words
  import opened Stream
  import opened Spv
  import opened Scan
  import opened EditEngine
  import opened Finish

  /** The body: everything after the five header words. */
  function Body(inSpv: seq<Word>): seq<Word>
    requires |inSpv| >= HEADER_LENGTH
  {
    inSpv[HEADER_LENGTH..]
  }

  /** The offsets the scan records, one list per watched opcode. */
  datatype Scanned = Scanned(opFunctionIdxs: seq<nat>, opIsNanIdxs: seq<nat>, opIsInfIdxs: seq<nat>,
                             opTypeBoolIdxs: seq<nat>, opTypeIntIdxs: seq<nat>, opTypeFloatIdxs: seq<nat>)

  /** What the walk over `spv` records under each watched opcode. */
  function ScanOf(spv: seq<Word>): Scanned
    requires WalkableFrom(spv, 0)
  {
    Scanned(ScanFrom(spv, 0, OP_FUNCTION), ScanFrom(spv, 0, OP_IS_NAN), ScanFrom(spv, 0, OP_IS_INF),
            ScanFrom(spv, 0, OP_TYPE_BOOL), ScanFrom(spv, 0, OP_TYPE_INT), ScanFrom(spv, 0, OP_TYPE_FLOAT))
  }

  /** `idxs` holds what the walk records under `op` before offset `i`. */
  predicate Collected(spv: seq<Word>, i: nat, idxs: seq<nat>, op: HalfWord)
  {
    WalkableFrom(spv, 0) && WalkableFrom(spv, i) && idxs + ScanFrom(spv, i, op) == ScanFrom(spv, 0, op)
  }

  lemma CollectStep(spv: seq<Word>, i: nat, idxs: seq<nat>, op: HalfWord)
    requires Collected(spv, i, idxs, op) && i < |spv|
    ensures Collected(spv, i + HiWord(spv[i]), if LoWord(spv[i]) == op then idxs + [i] else idxs, op)
  {
    Advance(idxs, spv, i, op);
    assert idxs + [] == idxs;
  }

  lemma CollectDone(spv: seq<Word>, i: nat, idxs: seq<nat>, op: HalfWord)
    requires Collected(spv, i, idxs, op) && i >= |spv|
    ensures idxs == ScanFrom(spv, 0, op)
  {
    Finished(idxs, spv, i, op);
  }

  /** The six lists hold what the walk records before offset `i`. */
  predicate AllCollected(spv: seq<Word>, i: nat, s: Scanned)
  {
    Collected(spv, i, s.opFunctionIdxs, OP_FUNCTION) && Collected(spv, i, s.opIsNanIdxs, OP_IS_NAN) &&
    Collected(spv, i, s.opIsInfIdxs, OP_IS_INF) && Collected(spv, i, s.opTypeBoolIdxs, OP_TYPE_BOOL) &&
    Collected(spv, i, s.opTypeIntIdxs, OP_TYPE_INT) && Collected(spv, i, s.opTypeFloatIdxs, OP_TYPE_FLOAT)
  }

  /** The lists after recording offset `i` under `op`. */
  function Record(s: Scanned, op: HalfWord, i: nat): Scanned
  {
    Scanned(if op == OP_FUNCTION then s.opFunctionIdxs + [i] else s.opFunctionIdxs,
            if op == OP_IS_NAN then s.opIsNanIdxs + [i] else s.opIsNanIdxs,
            if op == OP_IS_INF then s.opIsInfIdxs + [i] else s.opIsInfIdxs,
            if op == OP_TYPE_BOOL then s.opTypeBoolIdxs + [i] else s.opTypeBoolIdxs,
            if op == OP_TYPE_INT then s.opTypeIntIdxs + [i] else s.opTypeIntIdxs,
            if op == OP_TYPE_FLOAT then s.opTypeFloatIdxs + [i] else s.opTypeFloatIdxs)
  }

  lemma AllCollectedStep(spv: seq<Word>, i: nat, s: Scanned)
    requires AllCollected(spv, i, s) && i < |spv|
    ensures AllCollected(spv, i + HiWord(spv[i]), Record(s, LoWord(spv[i]), i))
  {
    CollectStep(spv, i, s.opFunctionIdxs, OP_FUNCTION);
    CollectStep(spv, i, s.opIsNanIdxs, OP_IS_NAN);
    CollectStep(spv, i, s.opIsInfIdxs, OP_IS_INF);
    CollectStep(spv, i, s.opTypeBoolIdxs, OP_TYPE_BOOL);
    CollectStep(spv, i, s.opTypeIntIdxs, OP_TYPE_INT);
    CollectStep(spv, i, s.opTypeFloatIdxs, OP_TYPE_FLOAT);
  }

  lemma AllCollectedDone(spv: seq<Word>, i: nat, s: Scanned)
    requires AllCollected(spv, i, s) && i >= |spv|
    ensures s == ScanOf(spv)
  {
    CollectDone(spv, i, s.opFunctionIdxs, OP_FUNCTION);
    CollectDone(spv, i, s.opIsNanIdxs, OP_IS_NAN);
    CollectDone(spv, i, s.opIsInfIdxs, OP_IS_INF);
    CollectDone(spv, i, s.opTypeBoolIdxs, OP_TYPE_BOOL);
    CollectDone(spv, i, s.opTypeIntIdxs, OP_TYPE_INT);
    CollectDone(spv, i, s.opTypeFloatIdxs, OP_TYPE_FLOAT);
  }

  /** Step 1 of the pass: walk the body by word count and push every
      instruction start under its opcode's list. */
  method ScanIsNanIsInf(spv: seq<Word>) returns (scanned: Scanned)
    requires WalkableFrom(spv, 0)
    ensures scanned == ScanOf(spv)
  {
    var opFunctionIdxs: seq<nat>, opIsNanIdxs: seq<nat>, opIsInfIdxs: seq<nat> := [], [], [];
    var opTypeBoolIdxs: seq<nat>, opTypeIntIdxs: seq<nat>, opTypeFloatIdxs: seq<nat> := [], [], [];
    var spvIdx: nat := 0;
    while spvIdx < |spv|
      invariant AllCollected(spv, spvIdx, Scanned(opFunctionIdxs, opIsNanIdxs, opIsInfIdxs,
                                                   opTypeBoolIdxs, opTypeIntIdxs, opTypeFloatIdxs))
      decreases |spv| - spvIdx
    {
      var op := spv[spvIdx];
      var wordCount := HiWord(op);
      var instruction := LoWord(op);
      ghost var before := Scanned(opFunctionIdxs, opIsNanIdxs, opIsInfIdxs,
                                  opTypeBoolIdxs, opTypeIntIdxs, opTypeFloatIdxs);
      AllCollectedStep(spv, spvIdx, before);
      if instruction == OP_FUNCTION {
        opFunctionIdxs := opFunctionIdxs + [spvIdx];
      } else if instruction == OP_IS_NAN {
        opIsNanIdxs := opIsNanIdxs + [spvIdx];
      } else if instruction == OP_IS_INF {
        opIsInfIdxs := opIsInfIdxs + [spvIdx];
      } else if instruction == OP_TYPE_BOOL {
        opTypeBoolIdxs := opTypeBoolIdxs + [spvIdx];
      } else if instruction == OP_TYPE_INT {
        opTypeIntIdxs := opTypeIntIdxs + [spvIdx];
      } else if instruction == OP_TYPE_FLOAT {
        opTypeFloatIdxs := opTypeFloatIdxs + [spvIdx];
      }
      assert Scanned(opFunctionIdxs, opIsNanIdxs, opIsInfIdxs, opTypeBoolIdxs, opTypeIntIdxs, opTypeFloatIdxs)
          == Record(before, instruction, spvIdx);
      spvIdx := spvIdx + wordCount;
    }
    scanned := Scanned(opFunctionIdxs, opIsNanIdxs, opIsInfIdxs, opTypeBoolIdxs, opTypeIntIdxs, opTypeFloatIdxs);
    AllCollectedDone(spv, spvIdx, scanned);
  }

  /** The scan found an `OpIsNan` or an `OpIsInf`. */
  predicate UsesNanOrInf(spv: seq<Word>)
    requires WalkableFrom(spv, 0)
  {
    ScanFrom(spv, 0, OP_IS_NAN) != [] || ScanFrom(spv, 0, OP_IS_INF) != []
  }

  /** The scan finds `OpIsNan` or `OpIsInf` exactly when an instruction of
      the body has one of these opcodes. */
  lemma UsesNanOrInfFound(spv: seq<Word>)
    requires WalkableFrom(spv, 0)
    ensures UsesNanOrInf(spv) <==> exists k: nat :: k < |spv| && IsStart(spv, k) && (LoWord(spv[k]) == OP_IS_NAN || LoWord(spv[k]) == OP_IS_INF)
  {
    ScanSelects(spv, OP_IS_NAN);
    ScanSelects(spv, OP_IS_INF);
    var nans := StartsWithOpcode(spv, OP_IS_NAN);
    var infs := StartsWithOpcode(spv, OP_IS_INF);
    if nans != [] {
      assert IsStart(spv, nans[0]) && LoWord(spv[nans[0]]) == OP_IS_NAN;
    } else if infs != [] {
      assert IsStart(spv, infs[0]) && LoWord(spv[infs[0]]) == OP_IS_INF;
    }
  }

  /** What the pass demands: the header can be read and starts with the
      magic number (otherwise the source panics), the scan of the body
      ends, and when the edit engine runs its pruning walk ends. */
  predicate PassReady(inSpv: seq<Word>)
  {
    |inSpv| >= HEADER_LENGTH && inSpv[0] == MAGIC_NUMBER &&
    WalkableFrom(Body(inSpv), 0) &&
    (UsesNanOrInf(Body(inSpv)) ==> Prunable(Body(inSpv)))
  }

  /** `isnanisinfpatch`: a module without `OpIsNan` and `OpIsInf` comes
      back as it was; any other comes back with the same header and its
      `OpNop` instructions erased. */
  method IsNanIsInfPass(inSpv: seq<Word>) returns (out: seq<Word>)
    requires PassReady(inSpv)
    ensures !UsesNanOrInf(Body(inSpv)) ==> out == inSpv
    ensures UsesNanOrInf(Body(inSpv)) ==>
              |out| >= HEADER_LENGTH && out[..HEADER_LENGTH] == inSpv[..HEADER_LENGTH] &&
              out[HEADER_LENGTH..] == Pruned(Body(inSpv))
  {
    var instructionBound := inSpv[BOUND_IDX];
    var spvHeader := inSpv[..HEADER_LENGTH];
    var spv := inSpv[HEADER_LENGTH..];
    var newSpv := spv;

    var scanned := ScanIsNanIsInf(spv);
    if scanned.opIsNanIdxs == [] && scanned.opIsInfIdxs == [] {
      return inSpv;
    }

    newSpv := InsertNewInstructions(spv, newSpv, [], []);
    assert Chain([], []) == [];
    newSpv := PruneNoops(newSpv);
    out := FuseFinal(spvHeader, newSpv, instructionBound);
    assert out[..HEADER_LENGTH] == inSpv[..HEADER_LENGTH];
  }

  /** On a well-formed body without `OpNop` instructions the second case
      also gives back the input: with no step of its own yet, the pass
      changes nothing in a clean module. */
  lemma PassKeepsCleanModule(inSpv: seq<Word>)
    requires |inSpv| >= HEADER_LENGTH && WellFormed(Body(inSpv))
    requires forall ins :: ins in Instructions(Body(inSpv)) ==> LoWord(ins[0]) != OP_NOP
    ensures Prunable(Body(inSpv))
    ensures inSpv[..HEADER_LENGTH] + Pruned(Body(inSpv)) == inSpv
  {
    NopFreeUnchanged(Body(inSpv));
    assert inSpv[..HEADER_LENGTH] + inSpv[HEADER_LENGTH..] == inSpv;
  }
}
