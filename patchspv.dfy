/** `patch_spv_decorations` (src/mirrorpatch.rs): add to a module the
    variables another module's patches made it need. Every new variable is
    a copy of the `OpVariable` that carries the same descriptor set and
    binding, with a fresh result id; the decorations of the copies are left
    to `util::decorate` and `util::correct_decorate`, which are not part of
    this model and come in as function parameters. */
module PatchDecorations {
  import opened Words
  import opened Options
  import opened Stream
  import opened Spv
  import opened Scan
  import opened EditEngine
  import opened Finish
  import opened Correction
  import opened AffectedDecorations

  /** What `util::decorate` is told about one new variable: the id of the
      variable it copies, its own id, and its kind of correction. */
  datatype AffectedDecoration = AffectedDecoration(originalResId: Word, newResId: Word, correctionType: CorrectionType)

  /** What `util::decorate` leaves behind: the instruction inserts (it may
      add its own), the correction map, and what `util::correct_decorate`
      is to correct afterwards. */
  datatype DecorateOut<D> = DecorateOut(instructionInserts: seq<InstructionInsert>, corrections: Option<CorrectionMap>,
                                        descriptorSetsToCorrect: D)

  /** `util::decorate`: body, queued inserts, first `OpDecorate`, all
      `OpDecorate` offsets, the new variables, the correction map. */
  type Decorate<D> = (seq<Word>, seq<InstructionInsert>, Option<nat>, seq<nat>, seq<AffectedDecoration>, Option<CorrectionMap>) -> DecorateOut<D>

  /** `util::correct_decorate`: rewrites the edited body. */
  type CorrectDecorate<!D> = (seq<Word>, D) -> seq<Word>

  // ---------------------------------------------------------------------
  // Scanning.

  /** The scanning walk: the offsets of the `OpDecorate` and of the
      `OpVariable` instructions, in stream order. */
  method ScanDecoratesAndVariables(spv: seq<Word>) returns (opDecorateIdxs: seq<nat>, opVariableIdxs: seq<nat>)
    requires WalkableFrom(spv, 0)
    ensures opDecorateIdxs == ScanFrom(spv, 0, OP_DECORATE)
    ensures opVariableIdxs == ScanFrom(spv, 0, OP_VARIABLE)
  {
    opDecorateIdxs, opVariableIdxs := [], [];
    var spvIdx: nat := 0;
    while spvIdx < |spv|
      invariant WalkableFrom(spv, spvIdx)
      invariant opDecorateIdxs + ScanFrom(spv, spvIdx, OP_DECORATE) == ScanFrom(spv, 0, OP_DECORATE)
      invariant opVariableIdxs + ScanFrom(spv, spvIdx, OP_VARIABLE) == ScanFrom(spv, 0, OP_VARIABLE)
      decreases |spv| - spvIdx
    {
      var op := spv[spvIdx];
      var wordCount := HiWord(op);
      var instruction := LoWord(op);
      Advance(opDecorateIdxs, spv, spvIdx, OP_DECORATE);
      Advance(opVariableIdxs, spv, spvIdx, OP_VARIABLE);
      if instruction == OP_DECORATE {
        opDecorateIdxs := opDecorateIdxs + [spvIdx];
      }
      if instruction == OP_VARIABLE {
        opVariableIdxs := opVariableIdxs + [spvIdx];
      }
      spvIdx := spvIdx + wordCount;
    }
    Finished(opDecorateIdxs, spv, spvIdx, OP_DECORATE);
    Finished(opVariableIdxs, spv, spvIdx, OP_VARIABLE);
  }

  // ---------------------------------------------------------------------
  // Finding the variable a new one copies.

  /** The target, decoration and value words of every `OpDecorate` can be
      read. */
  predicate DecoratesReadable(spv: seq<Word>, decs: seq<nat>)
  {
    forall i :: 0 <= i < |decs| ==> decs[i] + 3 < |spv|
  }

  /** The result id word of every `OpVariable` can be read. */
  predicate VariablesReadable(spv: seq<Word>, vars: seq<nat>)
  {
    forall i :: 0 <= i < |vars| ==> vars[i] + 2 < |spv|
  }

  /** The `OpDecorate` at `d` gives its target DescriptorSet `set`. */
  predicate SetsDescriptorSet(spv: seq<Word>, d: nat, descriptorSet: Word)
    requires d + 3 < |spv|
  {
    spv[d + 2] == DECORATION_DESCRIPTOR_SET && spv[d + 3] == descriptorSet
  }

  /** The `OpDecorate` at `e` gives `target` Binding `binding`. */
  predicate SetsBinding(spv: seq<Word>, e: nat, target: Word, binding: Word)
    requires e + 3 < |spv|
  {
    spv[e + 2] == DECORATION_BINDING && spv[e + 3] == binding && spv[e + 1] == target
  }

  /** The `OpDecorate` at `d` gives DescriptorSet `set` to a target that
      some `OpDecorate` gives Binding `binding`. */
  predicate Declares(spv: seq<Word>, decs: seq<nat>, d: nat, descriptorSet: Word, binding: Word)
    requires d + 3 < |spv| && DecoratesReadable(spv, decs)
  {
    SetsDescriptorSet(spv, d, descriptorSet) &&
    exists e :: e in decs && SetsBinding(spv, e, spv[d + 1], binding)
  }

  /** The `find_map` over the `OpDecorate` instructions `cands`: the target
      of the first that declares `set` and `binding`. */
  function FindDecorated(spv: seq<Word>, cands: seq<nat>, decs: seq<nat>, descriptorSet: Word, binding: Word): Option<Word>
    requires DecoratesReadable(spv, cands) && DecoratesReadable(spv, decs)
  {
    if cands == [] then None
    else if Declares(spv, decs, cands[0], descriptorSet, binding) then Some(spv[cands[0] + 1])
    else FindDecorated(spv, cands[1..], decs, descriptorSet, binding)
  }

  /** What the `find_map` finds is the target of the first declaring
      `OpDecorate`, and it finds nothing exactly when none declares. */
  lemma {:induction false} FindDecoratedFirst(spv: seq<Word>, cands: seq<nat>, decs: seq<nat>, descriptorSet: Word, binding: Word)
    requires DecoratesReadable(spv, cands) && DecoratesReadable(spv, decs)
    ensures var r := FindDecorated(spv, cands, decs, descriptorSet, binding);
            r.Some? ==> exists j :: 0 <= j < |cands| && Declares(spv, decs, cands[j], descriptorSet, binding) &&
                                    r.value == spv[cands[j] + 1] &&
                                    forall i :: 0 <= i < j ==> !Declares(spv, decs, cands[i], descriptorSet, binding)
    ensures FindDecorated(spv, cands, decs, descriptorSet, binding).None? <==>
            forall j :: 0 <= j < |cands| ==> !Declares(spv, decs, cands[j], descriptorSet, binding)
  {
    if cands != [] && !Declares(spv, decs, cands[0], descriptorSet, binding) {
      var tail := cands[1..];
      FindDecoratedFirst(spv, tail, decs, descriptorSet, binding);
      var r := FindDecorated(spv, tail, decs, descriptorSet, binding);
      if r.Some? {
        var j :| 0 <= j < |tail| && Declares(spv, decs, tail[j], descriptorSet, binding) && r.value == spv[tail[j] + 1] &&
                 forall i :: 0 <= i < j ==> !Declares(spv, decs, tail[i], descriptorSet, binding);
        assert cands[j + 1] == tail[j];
        assert forall i :: 0 < i <= j ==> cands[i] == tail[i - 1];
      }
      assert forall j :: 0 < j < |cands| ==> cands[j] == tail[j - 1];
    }
  }

  /** The `find` over the `OpVariable` instructions: the first whose result
      id is `id`. */
  function FindVariable(spv: seq<Word>, vars: seq<nat>, id: Word): (r: Option<nat>)
    requires VariablesReadable(spv, vars)
    ensures r.Some? ==> r.value in vars && spv[r.value + 2] == id
  {
    if vars == [] then None
    else if spv[vars[0] + 2] == id then Some(vars[0])
    else FindVariable(spv, vars[1..], id)
  }

  /** It finds nothing exactly when no variable has result id `id`. */
  lemma {:induction false} FindVariableNone(spv: seq<Word>, vars: seq<nat>, id: Word)
    requires VariablesReadable(spv, vars)
    ensures FindVariable(spv, vars, id).None? <==> forall v :: v in vars ==> spv[v + 2] != id
  {
    if vars != [] {
      FindVariableNone(spv, vars[1..], id);
      assert forall v :: v in vars ==> v == vars[0] || v in vars[1..];
    }
  }

  /** The variable a new variable for `set` and `binding` copies, if any. */
  function OriginalVariable(spv: seq<Word>, decs: seq<nat>, vars: seq<nat>, descriptorSet: Word, binding: Word): Option<nat>
    requires DecoratesReadable(spv, decs) && VariablesReadable(spv, vars)
  {
    match FindDecorated(spv, decs, decs, descriptorSet, binding)
    case None => None
    case Some(target) => FindVariable(spv, vars, target)
  }

  /** The original found is an `OpVariable` whose result id some
      `OpDecorate` gives DescriptorSet `set` and some `OpDecorate` gives
      Binding `binding`. */
  lemma OriginalVariableDecorated(spv: seq<Word>, decs: seq<nat>, vars: seq<nat>, descriptorSet: Word, binding: Word)
    requires DecoratesReadable(spv, decs) && VariablesReadable(spv, vars)
    requires OriginalVariable(spv, decs, vars, descriptorSet, binding).Some?
    ensures var idx := OriginalVariable(spv, decs, vars, descriptorSet, binding).value;
            idx in vars && idx + 2 < |spv| &&
            (exists d :: d in decs && SetsDescriptorSet(spv, d, descriptorSet) && spv[d + 1] == spv[idx + 2]) &&
            (exists e :: e in decs && SetsBinding(spv, e, spv[idx + 2], binding))
  {
    FindDecoratedFirst(spv, decs, decs, descriptorSet, binding);
  }

  /** The original of `v` is found, and its words can be copied with word
      2 replaced (`unwrap` and the copy panic otherwise). */
  predicate Resolves(spv: seq<Word>, decs: seq<nat>, vars: seq<nat>, v: NewVariable)
    requires DecoratesReadable(spv, decs) && VariablesReadable(spv, vars)
  {
    var o := OriginalVariable(spv, decs, vars, v.descriptorSet, v.binding);
    o.Some? && FitsAt(spv, o.value) && HiWord(spv[o.value]) >= 3
  }

  predicate AllResolve(spv: seq<Word>, decs: seq<nat>, vars: seq<nat>, affected: seq<NewVariable>)
  {
    DecoratesReadable(spv, decs) && VariablesReadable(spv, vars) &&
    forall v :: v in affected ==> Resolves(spv, decs, vars, v)
  }

  // ---------------------------------------------------------------------
  // The copies.

  /** The instruction queued for `v`: its original, word for word, with
      `v`'s id as result id, anchored at the original. */
  function VariableInsert(spv: seq<Word>, decs: seq<nat>, vars: seq<nat>, v: NewVariable): InstructionInsert
    requires DecoratesReadable(spv, decs) && VariablesReadable(spv, vars) && Resolves(spv, decs, vars, v)
  {
    var idx := OriginalVariable(spv, decs, vars, v.descriptorSet, v.binding).value;
    InstructionInsert(idx, spv[idx..idx + HiWord(spv[idx])][2 := v.newResId])
  }

  /** What `util::decorate` is told about `v`. */
  function Conversion(spv: seq<Word>, decs: seq<nat>, vars: seq<nat>, v: NewVariable): AffectedDecoration
    requires DecoratesReadable(spv, decs) && VariablesReadable(spv, vars) && Resolves(spv, decs, vars, v)
  {
    var idx := OriginalVariable(spv, decs, vars, v.descriptorSet, v.binding).value;
    AffectedDecoration(spv[idx + 2], v.newResId, v.correctionType)
  }

  function VariableInserts(spv: seq<Word>, decs: seq<nat>, vars: seq<nat>, affected: seq<NewVariable>): (r: seq<InstructionInsert>)
    requires AllResolve(spv, decs, vars, affected)
  {
    seq(|affected|, j requires 0 <= j < |affected| => VariableInsert(spv, decs, vars, affected[j]))
  }

  function Conversions(spv: seq<Word>, decs: seq<nat>, vars: seq<nat>, affected: seq<NewVariable>): (r: seq<AffectedDecoration>)
    requires AllResolve(spv, decs, vars, affected)
  {
    seq(|affected|, j requires 0 <= j < |affected| => Conversion(spv, decs, vars, affected[j]))
  }

  /** The copy for `v` has the original's length and words, except word 2,
      which is `v`'s id; it is spliced right after the original; and what
      `util::decorate` is told names the original's id and `v`'s id. */
  lemma VariableInsertCopies(spv: seq<Word>, decs: seq<nat>, vars: seq<nat>, v: NewVariable)
    requires DecoratesReadable(spv, decs) && VariablesReadable(spv, vars) && Resolves(spv, decs, vars, v)
    ensures var ins := VariableInsert(spv, decs, vars, v);
            var idx := ins.previousSpvIdx;
            idx in vars && FitsAt(spv, idx) &&
            |ins.instruction| == HiWord(spv[idx]) && ins.instruction[2] == v.newResId &&
            (forall k :: 0 <= k < |ins.instruction| && k != 2 ==> ins.instruction[k] == spv[idx + k]) &&
            PlaceOf(spv, Instruction(ins)).pos == idx + HiWord(spv[idx]) &&
            Conversion(spv, decs, vars, v) == AffectedDecoration(spv[idx + 2], v.newResId, v.correctionType)
  {
  }

  /** The cache of step 2 holds, for every set and binding looked up so
      far, the original that was found for them. */
  predicate CacheSound(spv: seq<Word>, decs: seq<nat>, vars: seq<nat>, cache: map<(Word, Word), nat>)
    requires DecoratesReadable(spv, decs) && VariablesReadable(spv, vars)
  {
    forall key :: key in cache ==> OriginalVariable(spv, decs, vars, key.0, key.1) == Some(cache[key])
  }

  /** The copies and conversions of the first `i` new variables are
      queued, in order. */
  predicate QueuedUpTo(spv: seq<Word>, decs: seq<nat>, vars: seq<nat>, affected: seq<NewVariable>, i: nat,
                       instructionInserts: seq<InstructionInsert>, affectedDecorations: seq<AffectedDecoration>)
    requires AllResolve(spv, decs, vars, affected)
  {
    i <= |affected| &&
    instructionInserts == VariableInserts(spv, decs, vars, affected)[..i] &&
    affectedDecorations == Conversions(spv, decs, vars, affected)[..i]
  }

  lemma QueuedStep(spv: seq<Word>, decs: seq<nat>, vars: seq<nat>, affected: seq<NewVariable>, i: nat,
                   instructionInserts: seq<InstructionInsert>, affectedDecorations: seq<AffectedDecoration>)
    requires AllResolve(spv, decs, vars, affected) && i < |affected|
    requires QueuedUpTo(spv, decs, vars, affected, i, instructionInserts, affectedDecorations)
    ensures Resolves(spv, decs, vars, affected[i])
    ensures QueuedUpTo(spv, decs, vars, affected, i + 1,
                       instructionInserts + [VariableInsert(spv, decs, vars, affected[i])],
                       affectedDecorations + [Conversion(spv, decs, vars, affected[i])])
  {
    assert affected[i] in affected;
    assert VariableInserts(spv, decs, vars, affected)[..i + 1] ==
           VariableInserts(spv, decs, vars, affected)[..i] + [VariableInsert(spv, decs, vars, affected[i])];
    assert Conversions(spv, decs, vars, affected)[..i + 1] ==
           Conversions(spv, decs, vars, affected)[..i] + [Conversion(spv, decs, vars, affected[i])];
  }

  /** The lookup of step 2: the cached original of `v`'s set and binding,
      or the one found by searching the decorations and the variables,
      which is then cached. */
  method LookUpOriginal(spv: seq<Word>, decs: seq<nat>, vars: seq<nat>, cache: map<(Word, Word), nat>, v: NewVariable)
    returns (idx: nat, newCache: map<(Word, Word), nat>)
    requires DecoratesReadable(spv, decs) && VariablesReadable(spv, vars) && Resolves(spv, decs, vars, v)
    requires CacheSound(spv, decs, vars, cache)
    ensures OriginalVariable(spv, decs, vars, v.descriptorSet, v.binding) == Some(idx)
    ensures CacheSound(spv, decs, vars, newCache)
  {
    if (v.descriptorSet, v.binding) in cache {
      idx, newCache := cache[(v.descriptorSet, v.binding)], cache;
    } else {
      var originalVariableId := FindDecorated(spv, decs, decs, v.descriptorSet, v.binding).value;
      idx := FindVariable(spv, vars, originalVariableId).value;
      newCache := cache[(v.descriptorSet, v.binding) := idx];
    }
  }

  /** `patch_spv_decorations`, step 2: for every new variable, look up its
      original (remembering, per set and binding, what was found), queue
      the copy and note what `util::decorate` needs. */
  method NewVariables(spv: seq<Word>, decs: seq<nat>, vars: seq<nat>, affected: seq<NewVariable>)
    returns (instructionInserts: seq<InstructionInsert>, affectedDecorations: seq<AffectedDecoration>)
    requires AllResolve(spv, decs, vars, affected)
    ensures instructionInserts == VariableInserts(spv, decs, vars, affected)
    ensures affectedDecorations == Conversions(spv, decs, vars, affected)
  {
    var cachedOriginalVariableIdxs: map<(Word, Word), nat> := map[];
    instructionInserts, affectedDecorations := [], [];
    for i := 0 to |affected|
      invariant CacheSound(spv, decs, vars, cachedOriginalVariableIdxs)
      invariant QueuedUpTo(spv, decs, vars, affected, i, instructionInserts, affectedDecorations)
    {
      var v := affected[i];
      QueuedStep(spv, decs, vars, affected, i, instructionInserts, affectedDecorations);
      var originalVariableIdx;
      originalVariableIdx, cachedOriginalVariableIdxs := LookUpOriginal(spv, decs, vars, cachedOriginalVariableIdxs, v);
      var originalVariableId := spv[originalVariableIdx + 2];
      var wordCount := HiWord(spv[originalVariableIdx]);
      var newVariable := spv[originalVariableIdx..originalVariableIdx + wordCount];
      newVariable := newVariable[2 := v.newResId];
      instructionInserts := instructionInserts + [InstructionInsert(originalVariableIdx, newVariable)];
      affectedDecorations := affectedDecorations + [AffectedDecoration(originalVariableId, v.newResId, v.correctionType)];
    }
    assert VariableInserts(spv, decs, vars, affected)[..|affected|] == VariableInserts(spv, decs, vars, affected);
    assert Conversions(spv, decs, vars, affected)[..|affected|] == Conversions(spv, decs, vars, affected);
  }

  // ---------------------------------------------------------------------
  // The patch.

  /** `op_decorate_idxs.first()`. */
  function First(decs: seq<nat>): (r: Option<nat>)
    ensures r.None? <==> decs == []
    ensures r.Some? ==> r.value == decs[0]
  {
    if decs == [] then None else Some(decs[0])
  }

  /** What `util::decorate` makes of the copies of `affected`. */
  function Decorated<D>(decorate: Decorate<D>, spv: seq<Word>, decs: seq<nat>, vars: seq<nat>,
                        affected: seq<NewVariable>, corrections: Option<CorrectionMap>): DecorateOut<D>
    requires AllResolve(spv, decs, vars, affected)
  {
    decorate(spv, VariableInserts(spv, decs, vars, affected), First(decs), decs,
             Conversions(spv, decs, vars, affected), corrections)
  }

  /** `insert_new_instructions` with no word inserts, on a fresh copy of
      `spv`. */
  function Inserted(spv: seq<Word>, instructionInserts: seq<InstructionInsert>): seq<Word>
    requires instructionInserts == [] || EditsFit(spv, spv, [], instructionInserts)
  {
    if instructionInserts == [] then spv
    else
      ScheduleFits(spv, spv, [], instructionInserts);
      var l := Scheduled([], instructionInserts);
      Merge(Bumped(spv, l), Places(spv, l))
  }

  /** What `patch_spv_decorations` needs of its input: a header with the
      SPIR-V magic number, a body the scan can walk, the lookups of every
      new variable succeed, `util::decorate` leaves inserts
      `insert_new_instructions` can apply, and what `util::correct_decorate`
      leaves can be pruned. */
  predicate Patchable<D>(inSpv: seq<Word>, corrections: Option<CorrectionMap>, affected: seq<NewVariable>,
                         decorate: Decorate<D>, correctDecorate: CorrectDecorate<D>)
  {
    |inSpv| >= HEADER_LENGTH && inSpv[0] == MAGIC_NUMBER &&
    var spv := inSpv[HEADER_LENGTH..];
    WalkableFrom(spv, 0) &&
    var decs := ScanFrom(spv, 0, OP_DECORATE);
    var vars := ScanFrom(spv, 0, OP_VARIABLE);
    AllResolve(spv, decs, vars, affected) &&
    var d := Decorated(decorate, spv, decs, vars, affected, corrections);
    (d.instructionInserts == [] || EditsFit(spv, spv, [], d.instructionInserts)) &&
    Prunable(correctDecorate(Inserted(spv, d.instructionInserts), d.descriptorSetsToCorrect))
  }

  /** The body `patch_spv_decorations` writes after the header. */
  function PatchedBody<D>(inSpv: seq<Word>, corrections: Option<CorrectionMap>, affected: seq<NewVariable>,
                          decorate: Decorate<D>, correctDecorate: CorrectDecorate<D>): seq<Word>
    requires Patchable(inSpv, corrections, affected, decorate, correctDecorate)
  {
    var spv := inSpv[HEADER_LENGTH..];
    var decs := ScanFrom(spv, 0, OP_DECORATE);
    var vars := ScanFrom(spv, 0, OP_VARIABLE);
    var d := Decorated(decorate, spv, decs, vars, affected, corrections);
    Pruned(correctDecorate(Inserted(spv, d.instructionInserts), d.descriptorSetsToCorrect))
  }

  /** The correction map `patch_spv_decorations` leaves behind. */
  function PatchedCorrections<D>(inSpv: seq<Word>, corrections: Option<CorrectionMap>, affected: seq<NewVariable>,
                                 decorate: Decorate<D>, correctDecorate: CorrectDecorate<D>): Option<CorrectionMap>
    requires Patchable(inSpv, corrections, affected, decorate, correctDecorate)
  {
    var spv := inSpv[HEADER_LENGTH..];
    var decs := ScanFrom(spv, 0, OP_DECORATE);
    var vars := ScanFrom(spv, 0, OP_VARIABLE);
    Decorated(decorate, spv, decs, vars, affected, corrections).corrections
  }

  /** `patch_spv_decorations`: scan the body, queue a copy of the original
      of every new variable, let `util::decorate` decorate them, splice,
      let `util::correct_decorate` renumber bindings, drop the `OpNop`
      words, and put the header back with the new id bound. */
  method PatchSpvDecorations<D>(inSpv: seq<Word>, corrections: Option<CorrectionMap>, newInstructionBound: Word,
                                affected: seq<NewVariable>, decorate: Decorate<D>, correctDecorate: CorrectDecorate<D>)
    returns (out: seq<Word>, newCorrections: Option<CorrectionMap>)
    requires Patchable(inSpv, corrections, affected, decorate, correctDecorate)
    ensures |out| >= HEADER_LENGTH
    ensures out[BOUND_IDX] == newInstructionBound
    ensures forall k :: 0 <= k < HEADER_LENGTH && k != BOUND_IDX ==> out[k] == inSpv[k]
    ensures out[HEADER_LENGTH..] == PatchedBody(inSpv, corrections, affected, decorate, correctDecorate)
    ensures newCorrections == PatchedCorrections(inSpv, corrections, affected, decorate, correctDecorate)
  {
    var spv := inSpv;
    var instructionBound := newInstructionBound;
    var spvHeader := spv[0..HEADER_LENGTH];

    spv := spv[HEADER_LENGTH..];
    var newSpv := spv;

    // 1. The instructions needed.
    var opDecorateIdxs, opVariableIdxs := ScanDecoratesAndVariables(spv);
    var firstOpDecorateIdx := First(opDecorateIdxs);

    // 2. The copies of the original variables.
    var instructionInserts, affectedDecorations := NewVariables(spv, opDecorateIdxs, opVariableIdxs, affected);

    // 3. Their decorations.
    var decorated := decorate(spv, instructionInserts, firstOpDecorateIdx, opDecorateIdxs, affectedDecorations, corrections);
    instructionInserts := decorated.instructionInserts;
    newCorrections := decorated.corrections;

    // 4. The splice.
    newSpv := InsertNewInstructions(spv, newSpv, [], instructionInserts);
    if instructionInserts == [] {
      assert Chain([], instructionInserts) == [];
    }
    assert newSpv == Inserted(spv, instructionInserts);

    // 5. The binding renumbering.
    newSpv := correctDecorate(newSpv, decorated.descriptorSetsToCorrect);

    // 6. The whited-out words.
    newSpv := PruneNoops(newSpv);

    // 7. The header.
    out := FuseFinal(spvHeader, newSpv, instructionBound);
  }
}
