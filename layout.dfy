/** What section 2.3 of the SPIR-V specification asks of the instructions
    that the generators emit as literal word lists: after the first word
    (word count and opcode) comes the Result Type <id> when the instruction
    has one, then the Result <id> when it defines one. A generator emits a
    function or a set of declarations whose result ids are a run of fresh
    ids starting at the incoming bound, while every type it refers to was
    declared before the run, below that bound; so in a correctly laid out
    instruction the type slot holds an id below the bound and the result
    slot an id at or above it. */
module Layout {
  import opened Words
  import opened Spv
  import opened Stream

  /** The opcode of an instruction. */
  function Opcode(ins: seq<Word>): HalfWord
    requires |ins| >= 1
  {
    LoWord(ins[0])
  }

  /** The opcodes the generators emit that have a Result Type <id> followed
      by a Result <id>. */
  predicate HasResultType(op: HalfWord)
  {
    op == OP_FUNCTION || op == OP_FUNCTION_PARAMETER || op == OP_VARIABLE || op == OP_LOAD
    || op == OP_EXT_INST || op == OP_ACCESS_CHAIN || op == OP_CONSTANT || op == OP_BITCAST
    || op == OP_S_NEGATE || op == OP_COMPOSITE_CONSTRUCT || op == OP_COMPOSITE_EXTRACT
    || op == OP_LOGICAL_AND || op == OP_SELECT || op == OP_I_EQUAL || op == OP_I_NOT_EQUAL
    || op == OP_S_GREATER_THAN || op == OP_S_GREATER_THAN_EQUAL || op == OP_F_ORD_GREATER_THAN
    || op == OP_F_ORD_GREATER_THAN_EQUAL || op == OP_SHIFT_RIGHT_LOGICAL || op == OP_BITWISE_AND
    || op == OP_PHI
  }

  /** The opcodes the generators emit that define a Result <id> without a
      Result Type. */
  predicate HasResultOnly(op: HalfWord)
  {
    op == OP_LABEL || op == OP_TYPE_FUNCTION
  }

  /** One instruction laid out as section 2.3 says, for a generator whose
      fresh ids start at `ib`: a declared type below `ib` in word 1 and a
      fresh result in word 2, or a fresh result in word 1 for the
      instructions without a type. Instructions defining nothing are not
      constrained. */
  predicate LaidOut(ins: seq<Word>, ib: nat)
    requires |ins| >= 1
  {
    (HasResultType(Opcode(ins)) ==> |ins| >= 3 && ins[1] < ib <= ins[2]) &&
    (HasResultOnly(Opcode(ins)) ==> |ins| >= 2 && ib <= ins[1])
  }

  /** Every instruction of `l` declares its own length and is laid out as
      section 2.3 says. */
  predicate AllLaidOut(l: seq<seq<Word>>, ib: nat)
  {
    AllProper(l) && forall k :: 0 <= k < |l| ==> LaidOut(l[k], ib)
  }

  /** `ins` declares `id` as the constant `value` of type `ty`. */
  predicate DeclaresConstant(ins: seq<Word>, ty: Word, id: Word, value: Word)
  {
    ins == [EncodeWord(4, OP_CONSTANT), ty, id, value]
  }

  /** The instructions that end a block. */
  predicate IsTerminator(op: HalfWord)
  {
    op == OP_BRANCH || op == OP_BRANCH_CONDITIONAL || op == OP_RETURN_VALUE || op == OP_UNREACHABLE
  }

  /** A block of a function body starts with an `OpLabel` and ends with a
      terminator. */
  predicate BlockEnds(b: seq<seq<Word>>)
  {
    |b| >= 2 && |b[0]| >= 1 && |b[|b| - 1]| >= 1 &&
    Opcode(b[0]) == OP_LABEL && IsTerminator(Opcode(b[|b| - 1]))
  }

  lemma AllProperAppend(a: seq<seq<Word>>, b: seq<seq<Word>>)
    requires AllProper(a) && AllProper(b)
    ensures AllProper(a + b)
  {
    assert forall k :: 0 <= k < |a + b| ==> (a + b)[k] == if k < |a| then a[k] else b[k - |a|];
  }

  lemma AllLaidOutAppend(a: seq<seq<Word>>, b: seq<seq<Word>>, ib: nat)
    requires AllLaidOut(a, ib) && AllLaidOut(b, ib)
    ensures AllLaidOut(a + b, ib)
  {
    AllProperAppend(a, b);
    assert forall k :: 0 <= k < |a + b| ==> (a + b)[k] == if k < |a| then a[k] else b[k - |a|];
  }

  /** Instructions that each declare their own length, laid out one after the
      other, form a well-formed stream that a walk cuts back into exactly
      those instructions. */
  lemma EmittedWellFormed(l: seq<seq<Word>>)
    requires AllProper(l)
    ensures WellFormed(Flatten(l)) && Instructions(Flatten(l)) == l
  {
    FlattenProper(l);
  }

  /** A list of instructions of `k` words each lays out `k` words apiece. */
  lemma {:induction false} FlattenLength(l: seq<seq<Word>>, k: nat)
    requires forall j :: 0 <= j < |l| ==> |l[j]| == k
    ensures |Flatten(l)| == k * |l|
  {
    if l != [] {
      FlattenLength(l[1..], k);
    }
  }

  /** A walk over properly counted instructions followed by `b` reaches the
      start of `b`, and from there it is the walk over `b`. */
  lemma {:induction false} WalkPastProper(p: seq<seq<Word>>, b: seq<Word>)
    requires AllProper(p)
    ensures WellFormedFrom(Flatten(p) + b, 0) == WellFormedFrom(b, 0)
  {
    if p != [] {
      var rest := Flatten(p[1..]) + b;
      assert AllProper(p[1..]) by {
        assert forall k :: 0 <= k < |p[1..]| ==> p[1..][k] == p[k + 1];
      }
      WalkPastProper(p[1..], b);
      var s := p[0] + rest;
      assert Flatten(p) + b == s;
      assert Proper(p[0]);
      ShiftFrom(p[0], rest, 0);
      assert s[0] == p[0][0];
      assert FitsAt(s, 0);
      assert WellFormedFrom(s, 0) == WellFormedFrom(s, |p[0]|);
      assert WellFormedFrom(s, |p[0]| + 0) == WellFormedFrom(rest, 0);
    } else {
      assert Flatten(p) + b == b;
    }
  }

  /** Cutting a list of instructions at `i`. */
  lemma FlattenAt(l: seq<seq<Word>>, i: nat)
    requires i < |l|
    ensures Flatten(l[i..]) == l[i] + Flatten(l[i + 1..])
    ensures Flatten(l) == Flatten(l[..i]) + Flatten(l[i..])
  {
    assert l[i..][1..] == l[i + 1..];
    assert l == l[..i] + l[i..];
    FlattenAppend(l[..i], l[i..]);
  }

  /** An instruction `x` that declares one word more than it has, after
      properly counted instructions and before an instruction `y` whose
      second word reads as a count of 0, stops the walk: the stream is not
      well-formed. */
  lemma OvercountLandsOn(p: seq<seq<Word>>, x: seq<Word>, y: seq<Word>, z: seq<Word>)
    requires AllProper(p) && |x| >= 1 && HiWord(x[0]) == |x| + 1 && |y| >= 2 && HiWord(y[1]) == 0
    ensures !WellFormed(Flatten(p) + (x + (y + z)))
  {
    var q := x + (y + z);
    WalkPastProper(p, q);
    assert q[0] == x[0] && q[|x| + 1] == y[1];
    assert !FitsAt(q, |x| + 1);
  }

  /** The words of a non-empty list of instructions: the first
      instruction's and the rest's. */
  lemma FlattenLengthCons(l: seq<seq<Word>>, i: nat)
    requires i < |l|
    ensures |Flatten(l[i..])| == |l[i]| + |Flatten(l[i + 1..])|
  {
    assert l[i..][1..] == l[i + 1..];
  }

  /** The words of nine instructions. */
  lemma FlattenLength9(l: seq<seq<Word>>)
    requires |l| == 9
    ensures |Flatten(l)| == |l[0]| + |l[1]| + |l[2]| + |l[3]| + |l[4]| + |l[5]| + |l[6]| + |l[7]| + |l[8]|
  {
    FlattenLengthCons(l, 0);
    FlattenLengthCons(l, 1);
    FlattenLengthCons(l, 2);
    FlattenLengthCons(l, 3);
    FlattenLengthCons(l, 4);
    FlattenLengthCons(l, 5);
    FlattenLengthCons(l, 6);
    FlattenLengthCons(l, 7);
    FlattenLengthCons(l, 8);
    assert l == l[0..];
  }

  /** The words of ten instructions. */
  lemma FlattenLength10(l: seq<seq<Word>>)
    requires |l| == 10
    ensures |Flatten(l)| == |l[0]| + |l[1]| + |l[2]| + |l[3]| + |l[4]| + |l[5]| + |l[6]| + |l[7]| + |l[8]| + |l[9]|
  {
    FlattenLengthCons(l, 0);
    FlattenLengthCons(l, 1);
    FlattenLengthCons(l, 2);
    FlattenLengthCons(l, 3);
    FlattenLengthCons(l, 4);
    FlattenLengthCons(l, 5);
    FlattenLengthCons(l, 6);
    FlattenLengthCons(l, 7);
    FlattenLengthCons(l, 8);
    FlattenLengthCons(l, 9);
    assert l == l[0..];
  }

  /** Two lists of instructions that differ only in the first word of one
      instruction, `a` against `b`, lay out streams that differ only in
      that word, after the words of the instructions before it. */
  lemma DifferInFirstWord(head: seq<seq<Word>>, a: seq<Word>, b: seq<Word>, tail: seq<seq<Word>>)
    requires |a| == |b| >= 1 && a[1..] == b[1..]
    ensures |Flatten(head + [a] + tail)| == |Flatten(head + [b] + tail)| > |Flatten(head)|
    ensures Flatten(head + [b] + tail)[|Flatten(head)|] == b[0]
    ensures Flatten(head + [a] + tail) == Flatten(head + [b] + tail)[|Flatten(head)| := a[0]]
  {
    FlattenAppend(head + [a], tail);
    FlattenAppend(head + [b], tail);
    FlattenAppend(head, [a]);
    FlattenAppend(head, [b]);
    assert Flatten([a]) == a + Flatten([]);
    assert Flatten([b]) == b + Flatten([]);
    assert a == b[0 := a[0]];
  }
}
