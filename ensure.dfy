/** The "ensure" helpers of src/util/ensure.rs: each looks for an existing
    declaration among the instructions a patch has already scanned and
    returns its result id, or else allocates a fresh id from the bound and
    appends a new declaration to the header buffer. The bound and the
    buffer are `&mut` parameters in the source; here they go in and come
    back out. */
module Ensure {
  import opened Words
  import opened Spv
  import opened Options
  import opened Stream
  import opened Literal
  import opened Ids

  // ---------------------------------------------------------------------
  // Finding a declaration by its two operands.

  /** The instruction at `k` has `a` and `b` as its words 2 and 3. */
  predicate HasOperands(spv: seq<Word>, k: nat, a: Word, b: Word)
  {
    k + 3 < |spv| && spv[k + 2] == a && spv[k + 3] == b
  }

  /** Every index the search reads, up to and including the first match,
      has words 2 and 3 inside the stream (reading past the end panics). */
  predicate OperandsScannable(spv: seq<Word>, idxs: seq<nat>, a: Word, b: Word)
    decreases |idxs|
  {
    idxs == [] ||
    (idxs[0] + 3 < |spv| && (HasOperands(spv, idxs[0], a, b) || OperandsScannable(spv, idxs[1..], a, b)))
  }

  /** `idxs.iter().find(...)`: the position in `idxs` of the first
      instruction whose words 2 and 3 are `a` and `b`. */
  function FindOperands(spv: seq<Word>, idxs: seq<nat>, a: Word, b: Word): (r: Option<nat>)
    requires OperandsScannable(spv, idxs, a, b)
    ensures r.Some? ==> r.value < |idxs| && HasOperands(spv, idxs[r.value], a, b)
    ensures r.Some? ==> forall j :: 0 <= j < r.value ==> !HasOperands(spv, idxs[j], a, b)
    ensures r.None? <==> forall j :: 0 <= j < |idxs| ==> !HasOperands(spv, idxs[j], a, b)
    decreases |idxs|
  {
    if idxs == [] then None
    else if HasOperands(spv, idxs[0], a, b) then Some(0)
    else
      match FindOperands(spv, idxs[1..], a, b)
      case None => None
      case Some(p) => Some(p + 1)
  }

  /** The common shape of `ensure_type_int`, `ensure_type_vector` and
      `ensure_type_pointer`: reuse the first scanned declaration with the
      template's two operands, or declare `[count 4 | opcode, id, a, b]`
      with the old bound as its id. */
  method EnsureWithOperands(spv: seq<Word>, idxs: seq<nat>, instructionBound: Word, header: seq<Word>,
                            opcode: HalfWord, a: Word, b: Word)
    returns (id: Word, newBound: Word, newHeader: seq<Word>)
    requires OperandsScannable(spv, idxs, a, b)
    requires FindOperands(spv, idxs, a, b).None? ==> instructionBound < MAX_WORD
    ensures FindOperands(spv, idxs, a, b).Some? ==>
              id == spv[idxs[FindOperands(spv, idxs, a, b).value] + 1] &&
              newBound == instructionBound && newHeader == header
    ensures FindOperands(spv, idxs, a, b).None? ==>
              id == instructionBound && newBound == instructionBound + 1 &&
              newHeader == header + [EncodeWord(4, opcode), id, a, b]
    ensures newHeader[..|header|] == header && Proper(newHeader[|header|..]) <== newBound != instructionBound
    ensures (forall k :: k in idxs && k + 1 < |spv| ==> spv[k + 1] < instructionBound) ==> id < newBound
  {
    var found := FindOperands(spv, idxs, a, b);
    if found.Some? {
      assert idxs[found.value] in idxs;
      id, newBound, newHeader := spv[idxs[found.value] + 1], instructionBound, header;
    } else {
      id := instructionBound;
      newBound := instructionBound + 1;
      newHeader := header + [EncodeWord(4, opcode), id, a, b];
      assert newHeader[|header|..] == [EncodeWord(4, opcode), id, a, b];
    }
  }

  /** `ensure_type_int`: an `OpTypeInt` of the template's width and
      signedness. */
  method EnsureTypeInt(spv: seq<Word>, opTypeIntIdxs: seq<nat>, instructionBound: Word, header: seq<Word>,
                       templateWidth: Word, templateSignedness: Word)
    returns (id: Word, newBound: Word, newHeader: seq<Word>)
    requires OperandsScannable(spv, opTypeIntIdxs, templateWidth, templateSignedness)
    requires FindOperands(spv, opTypeIntIdxs, templateWidth, templateSignedness).None? ==> instructionBound < MAX_WORD
    ensures FindOperands(spv, opTypeIntIdxs, templateWidth, templateSignedness).Some? ==>
              id == spv[opTypeIntIdxs[FindOperands(spv, opTypeIntIdxs, templateWidth, templateSignedness).value] + 1] &&
              newBound == instructionBound && newHeader == header
    ensures FindOperands(spv, opTypeIntIdxs, templateWidth, templateSignedness).None? ==>
              id == instructionBound && newBound == instructionBound + 1 &&
              newHeader == header + [EncodeWord(4, OP_TYPE_INT), id, templateWidth, templateSignedness]
  {
    id, newBound, newHeader := EnsureWithOperands(spv, opTypeIntIdxs, instructionBound, header,
                                                  OP_TYPE_INT, templateWidth, templateSignedness);
  }

  /** `ensure_type_vector`: an `OpTypeVector` of the template's component
      type and count. */
  method EnsureTypeVector(spv: seq<Word>, opTypeVectorIdxs: seq<nat>, instructionBound: Word, header: seq<Word>,
                          templateComponentTypeId: Word, templateComponentCount: Word)
    returns (id: Word, newBound: Word, newHeader: seq<Word>)
    requires OperandsScannable(spv, opTypeVectorIdxs, templateComponentTypeId, templateComponentCount)
    requires FindOperands(spv, opTypeVectorIdxs, templateComponentTypeId, templateComponentCount).None? ==>
               instructionBound < MAX_WORD
    ensures FindOperands(spv, opTypeVectorIdxs, templateComponentTypeId, templateComponentCount).Some? ==>
              id == spv[opTypeVectorIdxs[FindOperands(spv, opTypeVectorIdxs, templateComponentTypeId, templateComponentCount).value] + 1] &&
              newBound == instructionBound && newHeader == header
    ensures FindOperands(spv, opTypeVectorIdxs, templateComponentTypeId, templateComponentCount).None? ==>
              id == instructionBound && newBound == instructionBound + 1 &&
              newHeader == header + [EncodeWord(4, OP_TYPE_VECTOR), id, templateComponentTypeId, templateComponentCount]
  {
    id, newBound, newHeader := EnsureWithOperands(spv, opTypeVectorIdxs, instructionBound, header,
                                                  OP_TYPE_VECTOR, templateComponentTypeId, templateComponentCount);
  }

  /** `ensure_type_pointer`: an `OpTypePointer` of the template's storage
      class and pointee type. */
  method EnsureTypePointer(spv: seq<Word>, opTypePointerIdxs: seq<nat>, instructionBound: Word, header: seq<Word>,
                           templateStorageClass: Word, templateUnderlyingTypeId: Word)
    returns (id: Word, newBound: Word, newHeader: seq<Word>)
    requires OperandsScannable(spv, opTypePointerIdxs, templateStorageClass, templateUnderlyingTypeId)
    requires FindOperands(spv, opTypePointerIdxs, templateStorageClass, templateUnderlyingTypeId).None? ==>
               instructionBound < MAX_WORD
    ensures FindOperands(spv, opTypePointerIdxs, templateStorageClass, templateUnderlyingTypeId).Some? ==>
              id == spv[opTypePointerIdxs[FindOperands(spv, opTypePointerIdxs, templateStorageClass, templateUnderlyingTypeId).value] + 1] &&
              newBound == instructionBound && newHeader == header
    ensures FindOperands(spv, opTypePointerIdxs, templateStorageClass, templateUnderlyingTypeId).None? ==>
              id == instructionBound && newBound == instructionBound + 1 &&
              newHeader == header + [EncodeWord(4, OP_TYPE_POINTER), id, templateStorageClass, templateUnderlyingTypeId]
  {
    id, newBound, newHeader := EnsureWithOperands(spv, opTypePointerIdxs, instructionBound, header,
                                                  OP_TYPE_POINTER, templateStorageClass, templateUnderlyingTypeId);
  }

  /** Interning looks only at the scanned indices, never at the header
      buffer: asking twice for an integer type the module lacks allocates
      two ids and appends two declarations. */
  method EnsureTypeIntTwice(spv: seq<Word>, opTypeIntIdxs: seq<nat>, instructionBound: Word, header: seq<Word>,
                            templateWidth: Word, templateSignedness: Word)
    returns (first: Word, second: Word, newBound: Word, newHeader: seq<Word>)
    requires OperandsScannable(spv, opTypeIntIdxs, templateWidth, templateSignedness)
    requires FindOperands(spv, opTypeIntIdxs, templateWidth, templateSignedness).None?
    requires instructionBound + 1 < MAX_WORD
    ensures first != second && newBound == instructionBound + 2
    ensures newHeader == header + [EncodeWord(4, OP_TYPE_INT), first, templateWidth, templateSignedness]
                                + [EncodeWord(4, OP_TYPE_INT), second, templateWidth, templateSignedness]
  {
    var bound, buffer := instructionBound, header;
    first, bound, buffer := EnsureTypeInt(spv, opTypeIntIdxs, bound, buffer, templateWidth, templateSignedness);
    second, newBound, newHeader := EnsureTypeInt(spv, opTypeIntIdxs, bound, buffer, templateWidth, templateSignedness);
  }

  /** `ensure_type_bool`: the first scanned `OpTypeBool`, or a new one. */
  method EnsureTypeBool(spv: seq<Word>, opTypeBoolIdxs: seq<nat>, instructionBound: Word, header: seq<Word>)
    returns (id: Word, newBound: Word, newHeader: seq<Word>)
    requires opTypeBoolIdxs != [] ==> opTypeBoolIdxs[0] + 1 < |spv|
    requires opTypeBoolIdxs == [] ==> instructionBound < MAX_WORD
    ensures opTypeBoolIdxs != [] ==>
              id == spv[opTypeBoolIdxs[0] + 1] && newBound == instructionBound && newHeader == header
    ensures opTypeBoolIdxs == [] ==>
              id == instructionBound && newBound == instructionBound + 1 &&
              newHeader == header + [EncodeWord(2, OP_TYPE_BOOL), id]
    ensures newHeader[..|header|] == header && Proper(newHeader[|header|..]) <== newBound != instructionBound
    ensures (opTypeBoolIdxs != [] ==> spv[opTypeBoolIdxs[0] + 1] < instructionBound) ==> id < newBound
  {
    if opTypeBoolIdxs != [] {
      id, newBound, newHeader := spv[opTypeBoolIdxs[0] + 1], instructionBound, header;
    } else {
      id := instructionBound;
      newBound := instructionBound + 1;
      newHeader := header + [EncodeWord(2, OP_TYPE_BOOL), id];
      assert newHeader[|header|..] == [EncodeWord(2, OP_TYPE_BOOL), id];
    }
  }

  // ---------------------------------------------------------------------
  // Extended instruction set imports.

  /** The `OpExtInstImport` at `k` has its name words inside the stream
      (a word count below 2 makes the name slice panic). */
  predicate ImportFits(spv: seq<Word>, k: nat)
  {
    k < |spv| && 2 <= HiWord(spv[k]) && k + HiWord(spv[k]) <= |spv|
  }

  /** The name words of the import at `k`. */
  function NameWords(spv: seq<Word>, k: nat): seq<Word>
    requires ImportFits(spv, k)
  {
    spv[k + 2..k + HiWord(spv[k])]
  }

  /** The decoded name of the import at `k`. */
  function ImportName(spv: seq<Word>, k: nat): Decoded
    requires ImportFits(spv, k)
  {
    DecodeLiteral(NameWords(spv, k))
  }

  /** The import at `k` is decodable and its name passes the filter. */
  predicate ImportMatches(spv: seq<Word>, k: nat, filter: seq<Byte> -> bool)
  {
    ImportFits(spv, k) && ImportName(spv, k).Ok? && filter(ImportName(spv, k).bytes)
  }

  /** Every import the search decodes, up to the first match, fits and
      holds valid UTF-8 (an invalid name panics). */
  predicate ImportsScannable(spv: seq<Word>, idxs: seq<nat>, filter: seq<Byte> -> bool)
    decreases |idxs|
  {
    idxs == [] ||
    (ImportFits(spv, idxs[0]) && ImportName(spv, idxs[0]).Ok? &&
     (filter(ImportName(spv, idxs[0]).bytes) || ImportsScannable(spv, idxs[1..], filter)))
  }

  /** The position in `idxs` of the first import whose name passes. */
  function FindImport(spv: seq<Word>, idxs: seq<nat>, filter: seq<Byte> -> bool): (r: Option<nat>)
    requires ImportsScannable(spv, idxs, filter)
    ensures r.Some? ==> r.value < |idxs| && ImportFits(spv, idxs[r.value])
    decreases |idxs|
  {
    if idxs == [] then None
    else if filter(ImportName(spv, idxs[0]).bytes) then Some(0)
    else
      match FindImport(spv, idxs[1..], filter)
      case None => None
      case Some(p) => Some(p + 1)
  }

  /** The search finds the first import whose name passes, and finds
      nothing exactly when no scanned import passes. */
  lemma {:induction false} FindImportFirst(spv: seq<Word>, idxs: seq<nat>, filter: seq<Byte> -> bool)
    requires ImportsScannable(spv, idxs, filter)
    ensures var r := FindImport(spv, idxs, filter);
            (r.Some? ==> ImportMatches(spv, idxs[r.value], filter)) &&
            (r.Some? ==> forall j :: 0 <= j < r.value ==> !ImportMatches(spv, idxs[j], filter)) &&
            (r.None? <==> forall j :: 0 <= j < |idxs| ==> !ImportMatches(spv, idxs[j], filter))
    decreases |idxs|
  {
    if idxs != [] && !filter(ImportName(spv, idxs[0]).bytes) {
      FindImportFirst(spv, idxs[1..], filter);
      var r := FindImport(spv, idxs[1..], filter);
      assert forall j :: 1 <= j < |idxs| ==> idxs[j] == idxs[1..][j - 1];
    }
  }

  /** The allocating branch of `ensure_ext_inst_import`: the name is
      packed by `string_to_literal_le`, so a name whose length is a
      multiple of four gets no nul (see `Literal.MissingNul`). */
  method DeclareImport(instructionBound: Word, header: seq<Word>, template: seq<Byte>)
    returns (id: Word, newBound: Word, newHeader: seq<Word>)
    requires instructionBound < MAX_WORD && 2 + |PackLiteral(template)| < 0x1_0000
    ensures id == instructionBound && newBound == instructionBound + 1
    ensures newHeader == header + [EncodeWord(2 + |PackLiteral(template)|, OP_EXT_INST_IMPORT), id]
                                + PackLiteral(template)
    ensures newHeader[..|header|] == header && Proper(newHeader[|header|..])
  {
    var ext := StringToLiteralLe(template);
    id := instructionBound;
    newBound := instructionBound + 1;
    var decl := [EncodeWord(2 + |ext|, OP_EXT_INST_IMPORT), id] + ext;
    newHeader := header + decl;
    assert newHeader[|header|..] == decl;
  }

  /** `ensure_ext_inst_import`: the first scanned import whose name passes
      `filter`, or a new import of `template` packed as written; its word
      count is `2 + ext.len()` in a `u16`, so the name must leave the count
      below 2^16. */
  method EnsureExtInstImport(spv: seq<Word>, opExtInstImportIdxs: seq<nat>, instructionBound: Word,
                             header: seq<Word>, filter: seq<Byte> -> bool, template: seq<Byte>)
    returns (id: Word, newBound: Word, newHeader: seq<Word>)
    requires ImportsScannable(spv, opExtInstImportIdxs, filter)
    requires FindImport(spv, opExtInstImportIdxs, filter).None? ==>
               instructionBound < MAX_WORD && 2 + |PackLiteral(template)| < 0x1_0000
    ensures FindImport(spv, opExtInstImportIdxs, filter).Some? ==>
              id == spv[opExtInstImportIdxs[FindImport(spv, opExtInstImportIdxs, filter).value] + 1] &&
              newBound == instructionBound && newHeader == header
    ensures FindImport(spv, opExtInstImportIdxs, filter).None? ==>
              id == instructionBound && newBound == instructionBound + 1 &&
              newHeader == header + [EncodeWord(2 + |PackLiteral(template)|, OP_EXT_INST_IMPORT), id]
                                  + PackLiteral(template)
    ensures newHeader[..|header|] == header && Proper(newHeader[|header|..]) <== newBound != instructionBound
  {
    var found := FindImport(spv, opExtInstImportIdxs, filter);
    if found.Some? {
      id, newBound, newHeader := spv[opExtInstImportIdxs[found.value] + 1], instructionBound, header;
    } else {
      id, newBound, newHeader := DeclareImport(instructionBound, header, template);
    }
  }

  /** The import declared for "GLSL.std.450" is five words: the count 5,
      the id and the three words of the name, none of them holding a nul. */
  lemma GlslImportDeclared(header: seq<Word>, id: Word)
    ensures var decl := [EncodeWord(2 + |PackLiteral(GlslStd450())|, OP_EXT_INST_IMPORT), id] + PackLiteral(GlslStd450());
            decl == [EncodeWord(5, OP_EXT_INST_IMPORT), id, 1280527431, 1685353262, 808793134] &&
            !NulTerminated(decl[2..])
  {
    GlslStd450Words();
    MissingNul();
  }

  // ---------------------------------------------------------------------
  // last_of_indices!

  /** All the lists laid end to end. */
  function Concat(lists: seq<seq<nat>>): seq<nat>
  {
    if lists == [] then [] else Concat(lists[..|lists| - 1]) + lists[|lists| - 1]
  }

  /** `last_of_indices!`: the largest index over all the lists, or `None`
      when every list is empty. */
  method LastOfIndices(lists: seq<seq<nat>>) returns (maxVal: Option<nat>)
    ensures maxVal.None? <==> Concat(lists) == []
    ensures maxVal.Some? ==> maxVal.value in Concat(lists)
    ensures forall x :: x in Concat(lists) ==> maxVal.Some? && x <= maxVal.value
  {
    maxVal := None;
    ghost var seen: seq<nat> := [];
    for i := 0 to |lists|
      invariant seen == Concat(lists[..i])
      invariant maxVal.None? <==> seen == []
      invariant maxVal.Some? ==> maxVal.value in seen
      invariant forall x :: x in seen ==> maxVal.Some? && x <= maxVal.value
    {
      assert lists[..i + 1][..i] == lists[..i];
      for j := 0 to |lists[i]|
        invariant seen == Concat(lists[..i]) + lists[i][..j]
        invariant maxVal.None? <==> seen == []
        invariant maxVal.Some? ==> maxVal.value in seen
        invariant forall x :: x in seen ==> maxVal.Some? && x <= maxVal.value
      {
        var x := lists[i][j];
        maxVal := Some(match maxVal
          case Some(current) => if current >= x then current else x
          case None => x);
        seen := seen + [x];
        assert lists[i][..j + 1] == lists[i][..j] + [x];
      }
      assert lists[i][..|lists[i]|] == lists[i];
    }
    assert lists[..|lists|] == lists;
  }

  /** An index is in the concatenation exactly when it is in one of the
      lists. */
  lemma {:induction false} InConcat(lists: seq<seq<nat>>, x: nat)
    ensures x in Concat(lists) <==> exists i :: 0 <= i < |lists| && x in lists[i]
  {
    if lists != [] {
      var init := lists[..|lists| - 1];
      InConcat(init, x);
      if x in Concat(lists) && x !in lists[|lists| - 1] {
        var i :| 0 <= i < |init| && x in init[i];
        assert lists[i] == init[i];
      }
      if exists i :: 0 <= i < |lists| && x in lists[i] {
        var i :| 0 <= i < |lists| && x in lists[i];
        if i < |init| {
          assert init[i] == lists[i];
        }
      }
    }
  }
}
