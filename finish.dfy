/** The last two stages of the edit engine (src/util.rs): `prune_noops`
    erases the instructions a patch has whited out as `OpNop`, and
    `fuse_final` writes the new id bound into the header and puts the header
    back in front of the body. */
module Finish {
  import opened Words
  import opened Stream
  import opened Spv

  // ---------------------------------------------------------------------
  // prune_noops

  /** The inputs on which the pruning walk ends without a panic: every word
      count met on the way is at least one (a count of zero never advances),
      and an `OpNop` lies wholly inside the stream (removing past the end
      panics). The last instruction that is kept may run past the end. */
  predicate Prunable(s: seq<Word>)
    decreases |s|
  {
    s == [] ||
    (var n := HiWord(s[0]);
     1 <= n &&
     if LoWord(s[0]) == OP_NOP then n <= |s| && Prunable(s[n..])
     else n >= |s| || Prunable(s[n..]))
  }

  /** What the walk leaves: each `OpNop` instruction removed, every other
      instruction kept word for word. */
  function Pruned(s: seq<Word>): (r: seq<Word>)
    requires Prunable(s)
    decreases |s|
  {
    if s == [] then []
    else
      var n := HiWord(s[0]);
      if LoWord(s[0]) == OP_NOP then Pruned(s[n..])
      else if n >= |s| then s
      else s[..n] + Pruned(s[n..])
  }

  /** `Vec::remove(i)`, `count` times over. */
  method RemoveRun(s: seq<Word>, i: nat, count: nat) returns (r: seq<Word>)
    requires i + count <= |s|
    ensures r == s[..i] + s[i + count..]
  {
    r := s;
    for k := 0 to count
      invariant r == s[..i] + s[i + k..]
    {
      r := r[..i] + r[i + 1..];
    }
  }

  /** The state of the pruning walk at offset `i` of `r`: what is left of
      the walk, pruned, completes the words kept so far to the pruning of
      `spv`; an instruction kept at the end may take the offset past the
      end, and then `r` is the pruning of `spv`. */
  predicate PruneState(spv: seq<Word>, r: seq<Word>, i: nat)
    requires Prunable(spv)
  {
    (i <= |r| ==> Prunable(r[i..]) && Pruned(spv) == r[..i] + Pruned(r[i..])) &&
    (i > |r| ==> Pruned(spv) == r)
  }

  /** The walk starts at offset 0 of `spv` itself, and when it has run off
      the end what it holds is the pruning. */
  lemma PruneStartDone(spv: seq<Word>, r: seq<Word>, i: nat)
    requires Prunable(spv)
    ensures PruneState(spv, spv, 0)
    ensures PruneState(spv, r, i) && i >= |r| ==> r == Pruned(spv)
  {
    assert spv[0..] == spv;
    if i == |r| {
      assert r[..i] == r && r[i..] == [];
    }
  }

  /** At an `OpNop`, removing its words keeps the walk's state. */
  lemma NopStep(spv: seq<Word>, r: seq<Word>, i: nat)
    requires Prunable(spv) && PruneState(spv, r, i) && i < |r| && LoWord(r[i]) == OP_NOP
    ensures 1 <= HiWord(r[i]) && i + HiWord(r[i]) <= |r|
    ensures PruneState(spv, r[..i] + r[i + HiWord(r[i])..], i)
  {
    var rest := r[i..];
    var n := HiWord(r[i]);
    assert rest[0] == r[i];
    assert Pruned(rest) == Pruned(rest[n..]);
    var r' := r[..i] + r[i + n..];
    assert r'[..i] == r[..i];
    assert r'[i..] == rest[n..];
  }

  /** At any other instruction, stepping over it keeps the walk's state. */
  lemma KeepStep(spv: seq<Word>, r: seq<Word>, i: nat)
    requires Prunable(spv) && PruneState(spv, r, i) && i < |r| && LoWord(r[i]) != OP_NOP
    ensures 1 <= HiWord(r[i])
    ensures PruneState(spv, r, i + HiWord(r[i]))
  {
    var rest := r[i..];
    assert rest[0] == r[i];
    if i + HiWord(r[i]) < |r| {
      KeepInside(r, i, rest);
    } else {
      assert Pruned(rest) == rest;
      assert r == r[..i] + rest;
    }
  }

  /** Stepping over a kept instruction that ends inside the stream. */
  lemma KeepInside(r: seq<Word>, i: nat, rest: seq<Word>)
    requires i < |r| && rest == r[i..] && Prunable(rest) && LoWord(r[i]) != OP_NOP && i + HiWord(r[i]) < |r|
    ensures Prunable(r[i + HiWord(r[i])..])
    ensures r[..i] + Pruned(rest) == r[..i + HiWord(r[i])] + Pruned(r[i + HiWord(r[i])..])
  {
    var n := HiWord(r[i]);
    assert rest[0] == r[i];
    assert Pruned(rest) == rest[..n] + Pruned(rest[n..]);
    CutTwice(r, i, n);
  }

  /** Cutting at `i` and then `n` further on. */
  lemma CutTwice(r: seq<Word>, i: nat, n: nat)
    requires i + n <= |r|
    ensures r[..i + n] == r[..i] + r[i..][..n] && r[i + n..] == r[i..][n..]
  {
  }

  /** `prune_noops`: walk the stream by word count; at an `OpNop` remove its
      words and stay, otherwise step over the instruction. */
  method PruneNoops(spv: seq<Word>) returns (r: seq<Word>)
    requires Prunable(spv)
    ensures r == Pruned(spv)
  {
    r := spv;
    var i: nat := 0;
    PruneStartDone(spv, r, i);
    while i < |r|
      invariant PruneState(spv, r, i)
      decreases |r| - i
    {
      var op := r[i];
      var wordCount := HiWord(op);
      if LoWord(op) == OP_NOP {
        NopStep(spv, r, i);
        r := RemoveRun(r, i, wordCount);
      } else {
        KeepStep(spv, r, i);
        i := i + wordCount;
      }
    }
    PruneStartDone(spv, r, i);
  }

  /** Keeps the instructions whose opcode is not `OpNop`, in order. */
  function KeepNonNop(l: seq<seq<Word>>): (r: seq<seq<Word>>)
    requires AllProper(l)
    ensures AllProper(r)
    ensures forall j :: 0 <= j < |r| ==> LoWord(r[j][0]) != OP_NOP
    ensures |r| <= |l|
  {
    if l == [] then []
    else (if LoWord(l[0][0]) == OP_NOP then [] else [l[0]]) + KeepNonNop(l[1..])
  }

  /** On a well-formed stream, pruning is exactly dropping the `OpNop`
      instructions from the list of instructions. */
  lemma {:induction false} PrunedInstructions(s: seq<Word>)
    requires WellFormed(s)
    ensures Prunable(s)
    ensures Pruned(s) == Flatten(KeepNonNop(Instructions(s)))
    decreases |s|
  {
    if s != [] {
      var n := HiWord(s[0]);
      assert FitsAt(s, 0);
      var head, tail := s[..n], s[n..];
      assert head + tail == s;
      ShiftFrom(head, tail, 0);
      PrunedInstructions(tail);
      var l := Instructions(s);
      var rest := Instructions(tail);
      assert l == [head] + rest by {
        assert s[0..n] == head;
      }
      var kept := KeepNonNop(rest);
      assert l[1..] == rest;
      if LoWord(s[0]) == OP_NOP {
        assert KeepNonNop(l) == kept;
      } else {
        assert KeepNonNop(l) == [head] + kept;
        assert ([head] + kept)[1..] == kept;
        assert Flatten(KeepNonNop(l)) == head + Flatten(kept);
        if n >= |s| {
          assert tail == [];
          assert rest == [];
        }
      }
    }
  }

  /** The pruned stream is well formed, its instructions are those of the
      input without the `OpNop` ones, and none of them is an `OpNop`. */
  lemma PrunedWellFormed(s: seq<Word>)
    requires WellFormed(s)
    ensures Prunable(s) && WellFormed(Pruned(s))
    ensures Instructions(Pruned(s)) == KeepNonNop(Instructions(s))
    ensures forall ins :: ins in Instructions(Pruned(s)) ==> LoWord(ins[0]) != OP_NOP
  {
    PrunedInstructions(s);
    FlattenProper(KeepNonNop(Instructions(s)));
  }

  lemma {:induction false} KeepAll(l: seq<seq<Word>>)
    requires AllProper(l)
    requires forall j :: 0 <= j < |l| ==> LoWord(l[j][0]) != OP_NOP
    ensures KeepNonNop(l) == l
  {
    if l != [] {
      KeepAll(l[1..]);
    }
  }

  /** A stream without `OpNop` instructions comes out unchanged. */
  lemma NopFreeUnchanged(s: seq<Word>)
    requires WellFormed(s)
    requires forall ins :: ins in Instructions(s) ==> LoWord(ins[0]) != OP_NOP
    ensures Prunable(s) && Pruned(s) == s
  {
    var l := Instructions(s);
    assert AllProper(l);
    forall j | 0 <= j < |l| ensures LoWord(l[j][0]) != OP_NOP {
      assert l[j] in l;
    }
    KeepAll(l);
    PrunedInstructions(s);
    FlattenInstructions(s, 0);
  }

  /** Pruning twice is pruning once, on every input the walk accepts. */
  lemma {:induction false} PrunedIdempotent(s: seq<Word>)
    requires Prunable(s)
    ensures Prunable(Pruned(s)) && Pruned(Pruned(s)) == Pruned(s)
    decreases |s|
  {
    if s != [] {
      var n := HiWord(s[0]);
      if LoWord(s[0]) == OP_NOP {
        PrunedIdempotent(s[n..]);
      } else if n < |s| {
        PrunedIdempotent(s[n..]);
        var p := Pruned(s[n..]);
        var r := s[..n] + p;
        assert r[0] == s[0];
        if n < |r| {
          assert r[n..] == p;
          assert r[..n] == s[..n];
        }
      }
    }
  }

  // ---------------------------------------------------------------------
  // fuse_final

  /** `fuse_final`: overwrite the bound slot of the header, then append the
      body. Indexing the bound slot panics on a header of three words or
      fewer. */
  method FuseFinal(spvHeader: seq<Word>, newSpv: seq<Word>, newInstructionBound: Word) returns (out: seq<Word>)
    requires |spvHeader| > BOUND_IDX
    ensures |out| == |spvHeader| + |newSpv|
    ensures out[BOUND_IDX] == newInstructionBound
    ensures forall k :: 0 <= k < |spvHeader| && k != BOUND_IDX ==> out[k] == spvHeader[k]
    ensures out[|spvHeader|..] == newSpv
  {
    var header := spvHeader;
    header := header[BOUND_IDX := newInstructionBound];
    out := header + newSpv;
    assert out[|spvHeader|..] == newSpv;
  }
}
