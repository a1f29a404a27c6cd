/** A SPIR-V instruction stream (section 2.3 of the SPIR-V specification):
    a run of instructions, each starting with a word that packs its word
    count (high half) and its opcode (low half). The patches walk a stream
    by adding each instruction's word count to the current offset. */
module Stream {
  import opened Words

  /** The instruction at `i` declares its word count and fits. */
  predicate FitsAt(s: seq<Word>, i: nat)
  {
    i < |s| && 1 <= HiWord(s[i]) && i + HiWord(s[i]) <= |s|
  }

  /** From offset `i` on, `s` is a chain of instructions that each declare a
      word count of at least one and that ends exactly at the end of `s`. */
  predicate WellFormedFrom(s: seq<Word>, i: nat)
    ensures WellFormedFrom(s, i) ==> WalkableFrom(s, i)
    decreases |s| - i
  {
    if i >= |s| then i == |s|
    else FitsAt(s, i) && WellFormedFrom(s, i + HiWord(s[i]))
  }

  predicate WellFormed(s: seq<Word>)
  {
    WellFormedFrom(s, 0)
  }

  /** The weaker condition under which a `while i < len { i += count }` walk
      terminates: every word count met on the way is at least one (the
      last instruction may run past the end). */
  predicate WalkableFrom(s: seq<Word>, i: nat)
    decreases |s| - i
  {
    i >= |s| || (1 <= HiWord(s[i]) && WalkableFrom(s, i + HiWord(s[i])))
  }

  /** Offsets of the instructions met walking from `i`. */
  function StartsFrom(s: seq<Word>, i: nat): (r: seq<nat>)
    requires WalkableFrom(s, i)
    ensures forall j :: 0 <= j < |r| ==> i <= r[j] < |s|
    ensures forall j, k :: 0 <= j < k < |r| ==> r[j] + HiWord(s[r[j]]) <= r[k]
    ensures forall j :: 0 <= j < |r| - 1 ==> r[j + 1] == r[j] + HiWord(s[r[j]])
    ensures i < |s| <==> |r| > 0
    ensures i < |s| ==> r[0] == i
    decreases |s| - i
  {
    if i >= |s| then [] else [i] + StartsFrom(s, i + HiWord(s[i]))
  }

  function Starts(s: seq<Word>): seq<nat>
    requires WalkableFrom(s, 0)
  {
    StartsFrom(s, 0)
  }

  /** `k` is the offset of an instruction met walking `s` from its start. */
  predicate IsStart(s: seq<Word>, k: nat)
    requires WalkableFrom(s, 0)
  {
    k in Starts(s)
  }

  /** In a well-formed stream every instruction met on the walk fits. */
  lemma {:induction false} StartFits(s: seq<Word>, i: nat, k: nat)
    requires WellFormedFrom(s, i) && k in StartsFrom(s, i)
    ensures FitsAt(s, k)
    decreases |s| - i
  {
    if k != i {
      StartFits(s, i + HiWord(s[i]), k);
    }
  }

  /** Two instructions met on the walk do not overlap. */
  lemma StartsApart(s: seq<Word>, a: nat, b: nat)
    requires WalkableFrom(s, 0) && IsStart(s, a) && IsStart(s, b) && a < b
    ensures a + HiWord(s[a]) <= b
  {
    var r := Starts(s);
    var j :| 0 <= j < |r| && r[j] == a;
    var k :| 0 <= k < |r| && r[k] == b;
    IndexOrder(r, j, k);
  }

  /** In a non-decreasing sequence, a smaller entry sits at a smaller index. */
  lemma IndexOrder(r: seq<nat>, j: nat, k: nat)
    requires forall x, y :: 0 <= x < y < |r| ==> r[x] <= r[y]
    requires j < |r| && k < |r| && r[j] < r[k]
    ensures j < k
  {
  }

  /** The offsets of the instructions with opcode `op`, in order. */
  function SelectOpcode(s: seq<Word>, ks: seq<nat>, op: HalfWord): (r: seq<nat>)
    requires forall j :: 0 <= j < |ks| ==> ks[j] < |s|
    ensures forall j :: 0 <= j < |r| ==> r[j] in ks && LoWord(s[r[j]]) == op
    ensures forall k :: k in ks && LoWord(s[k]) == op ==> k in r
    ensures |r| <= |ks|
  {
    if ks == [] then []
    else if LoWord(s[ks[0]]) == op then [ks[0]] + SelectOpcode(s, ks[1..], op)
    else SelectOpcode(s, ks[1..], op)
  }

  /** Offsets, in stream order, of the instructions of `s` with opcode `op`. */
  function StartsWithOpcode(s: seq<Word>, op: HalfWord): seq<nat>
    requires WalkableFrom(s, 0)
  {
    SelectOpcode(s, Starts(s), op)
  }

  /** The stream cut into its instructions. */
  function InstructionsFrom(s: seq<Word>, i: nat): (r: seq<seq<Word>>)
    requires WellFormedFrom(s, i)
    ensures forall j :: 0 <= j < |r| ==> Proper(r[j])
    decreases |s| - i
  {
    if i >= |s| then [] else [s[i..i + HiWord(s[i])]] + InstructionsFrom(s, i + HiWord(s[i]))
  }

  function Instructions(s: seq<Word>): seq<seq<Word>>
    requires WellFormed(s)
  {
    InstructionsFrom(s, 0)
  }

  /** An instruction whose first word declares exactly its own length. */
  predicate Proper(ins: seq<Word>)
  {
    |ins| >= 1 && HiWord(ins[0]) == |ins|
  }

  predicate AllProper(l: seq<seq<Word>>)
  {
    forall j :: 0 <= j < |l| ==> Proper(l[j])
  }

  /** Instructions laid out one after the other. */
  function Flatten(l: seq<seq<Word>>): (r: seq<Word>)
    ensures |r| == TotalLength(l)
  {
    if l == [] then [] else l[0] + Flatten(l[1..])
  }

  function TotalLength(l: seq<seq<Word>>): nat
  {
    if l == [] then 0 else |l[0]| + TotalLength(l[1..])
  }

  lemma {:induction false} FlattenAppend(a: seq<seq<Word>>, b: seq<seq<Word>>)
    ensures Flatten(a + b) == Flatten(a) + Flatten(b)
  {
    if a == [] {
      assert a + b == b;
    } else {
      assert (a + b)[1..] == a[1..] + b;
      FlattenAppend(a[1..], b);
    }
  }

  /** Cutting a well-formed stream into instructions and laying them out again
      gives the stream back. */
  lemma {:induction false} FlattenInstructions(s: seq<Word>, i: nat)
    requires WellFormedFrom(s, i)
    ensures Flatten(InstructionsFrom(s, i)) == s[i..]
    decreases |s| - i
  {
    if i < |s| {
      var n := i + HiWord(s[i]);
      FlattenInstructions(s, n);
      assert s[i..] == s[i..n] + s[n..];
    }
  }

  /** A walk over `p + b` from inside `b` behaves like the walk over `b`. */
  lemma {:induction false} ShiftFrom(p: seq<Word>, b: seq<Word>, j: nat)
    requires j <= |b|
    ensures WellFormedFrom(p + b, |p| + j) == WellFormedFrom(b, j)
    ensures WellFormedFrom(b, j) ==> InstructionsFrom(p + b, |p| + j) == InstructionsFrom(b, j)
    decreases |b| - j
  {
    if j < |b| {
      var s := p + b;
      assert s[|p| + j] == b[j];
      var c := HiWord(b[j]);
      if 1 <= c && j + c <= |b| {
        ShiftFrom(p, b, j + c);
        assert s[|p| + j..|p| + j + c] == b[j..j + c];
      }
    }
  }

  /** Laying out instructions that each declare their own length gives a
      well-formed stream whose instructions are exactly those. */
  lemma {:induction false} FlattenProper(l: seq<seq<Word>>)
    requires AllProper(l)
    ensures WellFormed(Flatten(l))
    ensures Instructions(Flatten(l)) == l
  {
    if l != [] {
      FlattenProper(l[1..]);
      var rest := Flatten(l[1..]);
      var s := l[0] + rest;
      ShiftFrom(l[0], rest, 0);
      assert s[0] == l[0][0];
      assert s[..|l[0]|] == l[0];
    }
  }

  /** Concatenating well-formed streams gives a well-formed stream whose
      instructions are those of the first followed by those of the second. */
  lemma ConcatWellFormed(a: seq<Word>, b: seq<Word>)
    requires WellFormed(a) && WellFormed(b)
    ensures WellFormed(a + b)
    ensures Instructions(a + b) == Instructions(a) + Instructions(b)
  {
    FlattenInstructions(a, 0);
    FlattenInstructions(b, 0);
    var l := Instructions(a) + Instructions(b);
    FlattenAppend(Instructions(a), Instructions(b));
    assert a[0..] == a && b[0..] == b;
    assert AllProper(l);
    FlattenProper(l);
  }
}
