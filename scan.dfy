/** The scanning walk of the patches (src/mirrorpatch.rs and
    src/isnanisinfpatch.rs): step through the instruction stream by word
    count and record the offset of every instruction whose opcode is
    watched, one list per watched opcode. The walks themselves are methods
    of the patches; this module specifies what each list ends up holding. */
module Scan {
  import opened Words
  import opened Stream

  /** The offsets, in stream order, of the instructions met walking from
      `i` whose opcode is `op`. */
  function ScanFrom(s: seq<Word>, i: nat, op: HalfWord): seq<nat>
    requires WalkableFrom(s, i)
    decreases |s| - i
  {
    if i >= |s| then []
    else (if LoWord(s[i]) == op then [i] else []) + ScanFrom(s, i + HiWord(s[i]), op)
  }

  /** The walk selects exactly the instruction starts with opcode `op`. */
  lemma {:induction false} ScanFromSelects(s: seq<Word>, i: nat, op: HalfWord)
    requires WalkableFrom(s, i)
    ensures ScanFrom(s, i, op) == SelectOpcode(s, StartsFrom(s, i), op)
    decreases |s| - i
  {
    if i < |s| {
      var rest := StartsFrom(s, i + HiWord(s[i]));
      ScanFromSelects(s, i + HiWord(s[i]), op);
      assert StartsFrom(s, i) == [i] + rest;
      assert ([i] + rest)[1..] == rest;
    }
  }

  /** One step of the walk: the list kept so far, extended by the offset
      `i` when its opcode is `op`, followed by what the walk meets after
      `i`, is the list kept so far followed by what it meets from `i`. */
  lemma Advance(kept: seq<nat>, s: seq<Word>, i: nat, op: HalfWord)
    requires WalkableFrom(s, i) && i < |s|
    ensures WalkableFrom(s, i + HiWord(s[i]))
    ensures (kept + (if LoWord(s[i]) == op then [i] else [])) + ScanFrom(s, i + HiWord(s[i]), op) == kept + ScanFrom(s, i, op)
  {
    var here := if LoWord(s[i]) == op then [i] else [];
    assert (kept + here) + ScanFrom(s, i + HiWord(s[i]), op) == kept + (here + ScanFrom(s, i + HiWord(s[i]), op));
  }

  /** At the end of the walk nothing is left to meet. */
  lemma Finished(kept: seq<nat>, s: seq<Word>, i: nat, op: HalfWord)
    requires i >= |s|
    ensures kept + ScanFrom(s, i, op) == kept
  {
    assert kept + [] == kept;
  }

  /** What the walk records under `op` is the list of instruction starts
      with opcode `op`. */
  lemma ScanSelects(spv: seq<Word>, op: HalfWord)
    requires WalkableFrom(spv, 0)
    ensures ScanFrom(spv, 0, op) == StartsWithOpcode(spv, op)
  {
    ScanFromSelects(spv, 0, op);
  }
}
