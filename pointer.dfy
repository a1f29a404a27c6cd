/** `trace_previous_intermediate_id` (src/util/pointer.rs): walk the
    stream from its start up to an instruction offset and remember the last
    instruction of the form `%id = OpXxx %type ...` met on the way. */
module Pointer {
  import opened Words
  import opened Options
  import opened Stream

  /** The instruction found: its offset and the id in its word 1. */
  datatype TracedIntermediate = TracedIntermediate(idx: nat, resultTypeId: Word)

  /** The walk from `p` to `limit` reads only words inside the stream and
      advances at every step (a word count of zero never advances). */
  predicate TraceSafe(spv: seq<Word>, p: nat, limit: nat)
    decreases limit - p
  {
    p >= limit ||
    (p < |spv| && 1 <= HiWord(spv[p]) && (HiWord(spv[p]) > 2 ==> p + 2 < |spv|) &&
     TraceSafe(spv, p + HiWord(spv[p]), limit))
  }

  /** The offsets the walk visits from `p` while below `limit`. */
  function WalkBefore(spv: seq<Word>, p: nat, limit: nat): (r: seq<nat>)
    requires TraceSafe(spv, p, limit)
    ensures forall k :: k in r ==> p <= k < limit && k < |spv|
    decreases limit - p
  {
    if p >= limit then [] else [p] + WalkBefore(spv, p + HiWord(spv[p]), limit)
  }

  /** The instruction at `k` has more than two words and `id` in word 2. */
  predicate Defines(spv: seq<Word>, k: nat, id: Word)
  {
    k + 2 < |spv| && HiWord(spv[k]) > 2 && spv[k + 2] == id
  }

  /** What the walk from `p` leaves in `last_type_id`, if it starts empty. */
  function Trace(spv: seq<Word>, id: Word, p: nat, limit: nat): Option<TracedIntermediate>
    requires TraceSafe(spv, p, limit)
    decreases limit - p
  {
    if p >= limit then None
    else
      match Trace(spv, id, p + HiWord(spv[p]), limit)
      case Some(t) => Some(t)
      case None => if Defines(spv, p, id) then Some(TracedIntermediate(p, spv[p + 1])) else None
  }

  /** Nothing is found exactly when no visited instruction defines `id`. */
  lemma {:induction false} TraceNone(spv: seq<Word>, id: Word, p: nat, limit: nat)
    requires TraceSafe(spv, p, limit)
    ensures Trace(spv, id, p, limit).None? <==> forall k :: k in WalkBefore(spv, p, limit) ==> !Defines(spv, k, id)
    decreases limit - p
  {
    if p < limit {
      TraceNone(spv, id, p + HiWord(spv[p]), limit);
    }
  }

  /** What is found is a visited instruction that defines `id`, its word 1
      is the result type, and no later visited instruction defines `id`. */
  lemma {:induction false} TraceSome(spv: seq<Word>, id: Word, p: nat, limit: nat)
    requires TraceSafe(spv, p, limit) && Trace(spv, id, p, limit).Some?
    ensures var t := Trace(spv, id, p, limit).value;
            t.idx in WalkBefore(spv, p, limit) && Defines(spv, t.idx, id) &&
            t.resultTypeId == spv[t.idx + 1] &&
            forall k :: k in WalkBefore(spv, p, limit) && t.idx < k ==> !Defines(spv, k, id)
    decreases limit - p
  {
    var next := p + HiWord(spv[p]);
    if Trace(spv, id, next, limit).Some? {
      TraceSome(spv, id, next, limit);
    } else {
      TraceNone(spv, id, next, limit);
    }
  }

  /** `trace_previous_intermediate_id`: step through the instructions that
      start before `instructionIdx`, overwriting the answer at every one
      that defines `id`. */
  method TracePreviousIntermediateId(spv: seq<Word>, id: Word, instructionIdx: nat)
    returns (r: Option<TracedIntermediate>)
    requires TraceSafe(spv, 0, instructionIdx)
    ensures r.None? <==> forall k :: k in WalkBefore(spv, 0, instructionIdx) ==> !Defines(spv, k, id)
    ensures r.Some? ==> r.value.idx in WalkBefore(spv, 0, instructionIdx) && r.value.idx < instructionIdx
    ensures r.Some? ==> Defines(spv, r.value.idx, id) && r.value.resultTypeId == spv[r.value.idx + 1]
    ensures r.Some? ==> forall k :: k in WalkBefore(spv, 0, instructionIdx) && r.value.idx < k ==> !Defines(spv, k, id)
  {
    var spvIdx: nat := 0;
    r := None;
    while spvIdx < instructionIdx
      invariant TraceSafe(spv, spvIdx, instructionIdx)
      invariant Trace(spv, id, 0, instructionIdx) ==
                (if Trace(spv, id, spvIdx, instructionIdx).Some? then Trace(spv, id, spvIdx, instructionIdx) else r)
      decreases instructionIdx - spvIdx
    {
      var op := spv[spvIdx];
      var wordCount := HiWord(op);
      if wordCount > 2 && spv[spvIdx + 2] == id {
        r := Some(TracedIntermediate(spvIdx, spv[spvIdx + 1]));
      }
      spvIdx := spvIdx + wordCount;
    }
    TraceNone(spv, id, 0, instructionIdx);
    if r.Some? {
      TraceSome(spv, id, 0, instructionIdx);
    }
  }

  /** On a well-formed stream and an offset inside it, the walk never
      panics and visits only instruction starts, each of which fits. */
  lemma {:induction false} WalkStarts(spv: seq<Word>, p: nat, limit: nat)
    requires WellFormedFrom(spv, p) && limit <= |spv|
    ensures TraceSafe(spv, p, limit)
    ensures forall k :: k in WalkBefore(spv, p, limit) ==> k in StartsFrom(spv, p) && FitsAt(spv, k)
    decreases |spv| - p
  {
    if p < limit {
      var next := p + HiWord(spv[p]);
      WalkStarts(spv, next, limit);
    }
  }
}
