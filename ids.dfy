/** Id allocation (`inc` in src/isnanisinfpatch.rs): the id bound of a
    module is a counter threaded through the patch by `&mut`, and each
    fresh id is the counter's value before it is advanced. A counter at
    `u32::MAX` would overflow, which panics in a debug build; the model
    excludes it by precondition. */
module Ids {
  import opened Words

  const MAX_WORD: Word := 0xFFFF_FFFF

  /** `inc`: advance the bound and return its old value. */
  method Inc(ib: Word) returns (id: Word, newIb: Word)
    requires ib < MAX_WORD
    ensures id == ib && newIb == ib + 1
  {
    newIb := ib + 1;
    id := newIb - 1;
  }

  /** The ids `base`, `base + 1`, ..., `base + n - 1`. */
  function Run(base: nat, n: nat): (r: seq<nat>)
    ensures |r| == n
    ensures forall k :: 0 <= k < n ==> r[k] == base + k
  {
    seq(n, k => base + k)
  }

  /** `n` calls of `inc` in a row, as the generators make them. */
  method AllocRun(ib: Word, n: nat) returns (ids: seq<Word>, newIb: Word)
    requires ib + n <= MAX_WORD
    ensures ids == Run(ib, n) && newIb == ib + n
  {
    ids := [];
    newIb := ib;
    for k := 0 to n
      invariant ids == Run(ib, k) && newIb == ib + k
    {
      var id;
      id, newIb := Inc(newIb);
      ids := ids + [id];
    }
  }
}
