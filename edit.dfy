/** The three-stage edit engine of src/util.rs and the insert records of
    src/lib.rs. A pass copies the body into `new_spv`, whites out or patches
    words in place, queues inserts, and then (1) splices every insert into
    `new_spv` (`insert_new_instructions`), (2) erases the whited-out OpNop
    instructions (`prune_noops`) and (3) writes the final id bound into the
    header and puts header and body together (`fuse_final`). `&mut Vec`
    parameters are modelled as a value in and a value out. */
module EditEngine {
  import opened Words
  import opened Stream
  import opened Spv

  /** Queue a whole instruction right after the instruction at `previousSpvIdx`. */
  datatype InstructionInsert = InstructionInsert(previousSpvIdx: nat, instruction: seq<Word>)

  /** Queue one extra operand `word` after offset `idx`; `headIdx` is the
      start of the instruction that grows by it. */
  datatype WordInsert = WordInsert(idx: nat, word: Word, headIdx: nat)

  /** The local `enum Insert` of `insert_new_instructions`. */
  datatype Insert = Word(wordInsert: WordInsert) | Instruction(instructionInsert: InstructionInsert)

  /** The sort key: the offset the insert is attached to. */
  function Key(x: Insert): nat
  {
    match x
    case Word(w) => w.idx
    case Instruction(i) => i.previousSpvIdx
  }

  function WordsOf(wordInserts: seq<WordInsert>): (r: seq<Insert>)
    ensures |r| == |wordInserts|
    ensures forall k :: 0 <= k < |r| ==> r[k] == Word(wordInserts[k])
  {
    if wordInserts == [] then [] else [Word(wordInserts[0])] + WordsOf(wordInserts[1..])
  }

  function InstructionsOf(instructionInserts: seq<InstructionInsert>): (r: seq<Insert>)
    ensures |r| == |instructionInserts|
    ensures forall k :: 0 <= k < |r| ==> r[k] == Instruction(instructionInserts[k])
  {
    if instructionInserts == [] then []
    else [Instruction(instructionInserts[0])] + InstructionsOf(instructionInserts[1..])
  }

  /** The word inserts followed by the instruction inserts. */
  function Chain(wordInserts: seq<WordInsert>, instructionInserts: seq<InstructionInsert>): (r: seq<Insert>)
    ensures |r| == |wordInserts| + |instructionInserts|
  {
    WordsOf(wordInserts) + InstructionsOf(instructionInserts)
  }

  // ---------------------------------------------------------------------
  // `sort_by_key`: a stable sort by Key.

  predicate SortedByKey(l: seq<Insert>)
  {
    forall j, k :: 0 <= j < k < |l| ==> Key(l[j]) <= Key(l[k])
  }

  /** Put `x` after every element whose key is not larger than its own. */
  function InsertByKey(x: Insert, l: seq<Insert>): (r: seq<Insert>)
    ensures |r| == |l| + 1
  {
    if l == [] || Key(x) < Key(l[0]) then [x] + l
    else [l[0]] + InsertByKey(x, l[1..])
  }

  lemma {:induction false} InsertByKeyPermutes(x: Insert, l: seq<Insert>)
    ensures multiset(InsertByKey(x, l)) == multiset(l) + multiset{x}
  {
    if l != [] && Key(x) >= Key(l[0]) {
      InsertByKeyPermutes(x, l[1..]);
      assert l == [l[0]] + l[1..];
    }
  }

  lemma {:induction false} InsertByKeySorted(x: Insert, l: seq<Insert>)
    requires SortedByKey(l)
    ensures SortedByKey(InsertByKey(x, l))
  {
    if l != [] && Key(x) >= Key(l[0]) {
      InsertByKeySorted(x, l[1..]);
      var r := InsertByKey(x, l[1..]);
      InsertByKeyPermutes(x, l[1..]);
      forall e | e in r ensures Key(l[0]) <= Key(e) {
        assert e in multiset(r);
        if e != x {
          assert e in multiset(l[1..]);
          assert e in l[1..];
        }
      }
      assert InsertByKey(x, l) == [l[0]] + r;
    }
  }

  function SortByKey(l: seq<Insert>): (r: seq<Insert>)
    ensures |r| == |l|
  {
    if l == [] then []
    else InsertByKey(l[|l| - 1], SortByKey(l[..|l| - 1]))
  }

  /** The sort orders by key ... */
  lemma {:induction false} SortByKeySorted(l: seq<Insert>)
    ensures SortedByKey(SortByKey(l))
  {
    if l != [] {
      SortByKeySorted(l[..|l| - 1]);
      InsertByKeySorted(l[|l| - 1], SortByKey(l[..|l| - 1]));
    }
  }

  /** ... and is a permutation. */
  lemma {:induction false} SortByKeyPermutes(l: seq<Insert>)
    ensures multiset(SortByKey(l)) == multiset(l)
  {
    if l != [] {
      SortByKeyPermutes(l[..|l| - 1]);
      InsertByKeyPermutes(l[|l| - 1], SortByKey(l[..|l| - 1]));
      assert l == l[..|l| - 1] + [l[|l| - 1]];
    }
  }

  /** The elements of `l` with key `k`, in order. */
  function WithKey(l: seq<Insert>, k: nat): seq<Insert>
  {
    if l == [] then []
    else (if Key(l[0]) == k then [l[0]] else []) + WithKey(l[1..], k)
  }

  lemma {:induction false} WithKeyAppend(a: seq<Insert>, b: seq<Insert>, k: nat)
    ensures WithKey(a + b, k) == WithKey(a, k) + WithKey(b, k)
  {
    if a == [] {
      assert a + b == b;
    } else {
      var h := if Key(a[0]) == k then [a[0]] else [];
      assert (a + b)[0] == a[0];
      assert (a + b)[1..] == a[1..] + b;
      WithKeyAppend(a[1..], b, k);
      assert WithKey(a + b, k) == h + (WithKey(a[1..], k) + WithKey(b, k));
      assert WithKey(a, k) == h + WithKey(a[1..], k);
    }
  }

  lemma {:induction false} NoneWithSmallerKey(l: seq<Insert>, k: nat)
    requires SortedByKey(l) && l != [] && k < Key(l[0])
    ensures WithKey(l, k) == []
    decreases |l|
  {
    if |l| > 1 {
      NoneWithSmallerKey(l[1..], k);
    }
  }

  lemma {:induction false} InsertByKeyStable(x: Insert, l: seq<Insert>, k: nat)
    requires SortedByKey(l)
    ensures WithKey(InsertByKey(x, l), k) == WithKey(l, k) + WithKey([x], k)
  {
    assert [x][1..] == [];
    if l == [] {
    } else if Key(x) < Key(l[0]) {
      WithKeyAppend([x], l, k);
      if Key(x) == k {
        NoneWithSmallerKey(l, k);
      }
    } else {
      var r := InsertByKey(x, l[1..]);
      InsertByKeyStable(x, l[1..], k);
      WithKeyAppend([l[0]], r, k);
      assert l == [l[0]] + l[1..];
      WithKeyAppend([l[0]], l[1..], k);
    }
  }

  /** The sort is stable: the elements sharing a key keep their order. */
  lemma {:induction false} SortByKeyStable(l: seq<Insert>, k: nat)
    ensures WithKey(SortByKey(l), k) == WithKey(l, k)
  {
    if l != [] {
      var init, last := l[..|l| - 1], l[|l| - 1];
      SortByKeyStable(init, k);
      SortByKeySorted(init);
      InsertByKeyStable(last, SortByKey(init), k);
      WithKeyLast(l, k);
    }
  }

  lemma WithKeyLast(l: seq<Insert>, k: nat)
    requires l != []
    ensures WithKey(l, k) == WithKey(l[..|l| - 1], k) + WithKey([l[|l| - 1]], k)
  {
    assert l == l[..|l| - 1] + [l[|l| - 1]];
    WithKeyAppend(l[..|l| - 1], [l[|l| - 1]], k);
  }


  /** Sum of `f` over a list; the sort keeps every such sum. */
  function SumOf(f: Insert -> nat, l: seq<Insert>): nat
  {
    if l == [] then 0 else f(l[0]) + SumOf(f, l[1..])
  }

  lemma {:induction false} SumOfInsertByKey(f: Insert -> nat, x: Insert, l: seq<Insert>)
    ensures SumOf(f, InsertByKey(x, l)) == SumOf(f, l) + f(x)
  {
    if l != [] && Key(x) >= Key(l[0]) {
      SumOfInsertByKey(f, x, l[1..]);
      assert InsertByKey(x, l)[1..] == InsertByKey(x, l[1..]);
    } else {
      assert ([x] + l)[1..] == l;
    }
  }

  lemma {:induction false} SumOfAppend(f: Insert -> nat, a: seq<Insert>, b: seq<Insert>)
    ensures SumOf(f, a + b) == SumOf(f, a) + SumOf(f, b)
  {
    if a == [] {
      assert a + b == b;
    } else {
      assert (a + b)[1..] == a[1..] + b;
      SumOfAppend(f, a[1..], b);
    }
  }

  lemma SumOfLast(f: Insert -> nat, l: seq<Insert>)
    requires l != []
    ensures SumOf(f, l) == SumOf(f, l[..|l| - 1]) + f(l[|l| - 1])
  {
    var init, last := l[..|l| - 1], l[|l| - 1];
    assert l == init + [last];
    SumOfAppend(f, init, [last]);
    assert [last][1..] == [];
  }

  lemma {:induction false} SumOfSortByKey(f: Insert -> nat, l: seq<Insert>)
    ensures SumOf(f, SortByKey(l)) == SumOf(f, l)
  {
    if l != [] {
      var init, last := l[..|l| - 1], l[|l| - 1];
      SumOfSortByKey(f, init);
      SumOfInsertByKey(f, last, SortByKey(init));
      SumOfLast(f, l);
    }
  }

  // ---------------------------------------------------------------------
  // The splice, in the offsets of the stream before any insert.

  /** The content an insert adds and the offset, in the stream before any
      insert, in front of which it goes. */
  datatype Place = Place(pos: nat, content: seq<Word>)

  /** Every instruction insert is anchored inside `spv`. */
  predicate Anchored(spv: seq<Word>, l: seq<Insert>)
  {
    forall x :: x in l && x.Instruction? ==> x.instructionInsert.previousSpvIdx < |spv|
  }

  /** A word goes right after `idx`; an instruction right after its anchor
      instruction, whose length is read from the original stream. */
  function PlaceOf(spv: seq<Word>, x: Insert): (p: Place)
    requires x.Instruction? ==> x.instructionInsert.previousSpvIdx < |spv|
    ensures |p.content| == Weight(x)
  {
    match x
    case Word(w) => Place(w.idx + 1, [w.word])
    case Instruction(i) => Place(i.previousSpvIdx + HiWord(spv[i.previousSpvIdx]), i.instruction)
  }

  /** Number of words an insert adds. */
  function Weight(x: Insert): nat
  {
    match x
    case Word(_) => 1
    case Instruction(i) => |i.instruction|
  }

  function Places(spv: seq<Word>, l: seq<Insert>): (r: seq<Place>)
    requires Anchored(spv, l)
    ensures |r| == |l|
  {
    if l == [] then [] else [PlaceOf(spv, l[0])] + Places(spv, l[1..])
  }

  lemma {:induction false} PlacesAt(spv: seq<Word>, l: seq<Insert>, j: nat)
    requires Anchored(spv, l) && j < |l|
    ensures Places(spv, l)[j] == PlaceOf(spv, l[j])
  {
    if j > 0 {
      assert forall x :: x in l[1..] ==> x in l;
      PlacesAt(spv, l[1..], j - 1);
    }
  }

  /** Offsets never decrease along the list. */
  predicate Ordered(f: seq<Place>)
    decreases |f|
  {
    |f| <= 1 || (Ordered(f[..|f| - 1]) && Within(f[..|f| - 1], f[|f| - 1].pos))
  }

  lemma {:induction false} OrderedPairs(f: seq<Place>)
    ensures Ordered(f) <==> forall j, k :: 0 <= j < k < |f| ==> f[j].pos <= f[k].pos
    decreases |f|
  {
    if |f| > 1 {
      var init := f[..|f| - 1];
      OrderedPairs(init);
      if forall j, k :: 0 <= j < k < |f| ==> f[j].pos <= f[k].pos {
        assert forall j, k :: 0 <= j < k < |init| ==> init[j].pos <= init[k].pos;
      }
    }
  }

  predicate Within(f: seq<Place>, n: nat)
  {
    forall j :: 0 <= j < |f| ==> f[j].pos <= n
  }

  predicate Above(f: seq<Place>, n: nat)
  {
    forall j :: 0 <= j < |f| ==> n <= f[j].pos
  }

  /** Words added by a list of places. */
  function TotalContent(f: seq<Place>): nat
  {
    if f == [] then 0 else TotalContent(f[..|f| - 1]) + |f[|f| - 1].content|
  }

  /** `s` with every place's content spliced in front of offset `pos`;
      contents sharing an offset come in list order. */
  function Merge(s: seq<Word>, f: seq<Place>): (r: seq<Word>)
    requires Ordered(f) && Within(f, |s|)
    ensures |r| == |s| + TotalContent(f)
    decreases |f|
  {
    if f == [] then s
    else
      var last := f[|f| - 1];
      Merge(s[..last.pos], f[..|f| - 1]) + last.content + s[last.pos..]
  }

  /** Splicing `c` into `s` in front of offset `p` (repeated `Vec::insert`). */
  function Splice(s: seq<Word>, p: nat, c: seq<Word>): (r: seq<Word>)
    requires p <= |s|
    ensures |r| == |s| + |c|
  {
    s[..p] + c + s[p..]
  }

  /** A place in front of an ordered list keeps it ordered. */
  lemma {:induction false} OrderedCons(q: Place, f: seq<Place>, n: nat)
    requires Ordered(f) && Above(f, q.pos) && Within(f, n) && q.pos <= n
    ensures Ordered([q] + f) && Within([q] + f, n)
    decreases |f|
  {
    var g := [q] + f;
    if f != [] {
      var init := f[..|f| - 1];
      OrderedCons(q, init, n);
      assert g[..|g| - 1] == [q] + init;
    }
    forall j | 0 <= j < |g| ensures g[j].pos <= n {
      if j > 0 {
        assert g[j] == f[j - 1];
      }
    }
  }

  lemma ConsInit(q: Place, f: seq<Place>)
    requires f != []
    ensures ([q] + f)[..|f|] == [q] + f[..|f| - 1]
    ensures ([q] + f)[|f|] == f[|f| - 1]
  {
  }

  /** One unfolding of `Merge`: the last place goes in last. */
  lemma MergeLast(t: seq<Word>, f: seq<Place>)
    requires Ordered(f) && Within(f, |t|) && f != []
    ensures Ordered(f[..|f| - 1]) && Within(f[..|f| - 1], f[|f| - 1].pos)
    ensures Merge(t, f) == Merge(t[..f[|f| - 1].pos], f[..|f| - 1]) + f[|f| - 1].content + t[f[|f| - 1].pos..]
  {
  }

  /** Splicing in front of every other place first is the same as merging
      the extra place at the front of the list. */
  lemma {:induction false} MergeCons(t: seq<Word>, p: nat, c: seq<Word>, f: seq<Place>)
    requires Ordered(f) && Within(f, |t|) && p <= |t| && Above(f, p)
    ensures Ordered([Place(p, c)] + f)
    ensures Splice(Merge(t, f), p, c) == Merge(t, [Place(p, c)] + f)
    decreases |f|
  {
    var q := Place(p, c);
    var g := [q] + f;
    OrderedCons(q, f, |t|);
    if f == [] {
      MergeLast(t, g);
      assert g[..0] == [];
    } else {
      var last := f[|f| - 1];
      var init := f[..|f| - 1];
      var u := t[..last.pos];
      var rest := last.content + t[last.pos..];
      MergeLast(t, f);
      MergeCons(u, p, c, init);
      MergeLast(t, g);
      ConsInit(q, f);
      var m := Merge(u, init);
      assert Merge(t, g) == Splice(m, p, c) + rest;
      assert Merge(t, f) == m + rest;
      SpliceAppend(m, rest, p, c);
      assert Splice(Merge(t, f), p, c) == Splice(m, p, c) + rest;
    }
  }

  lemma SpliceAppend(a: seq<Word>, b: seq<Word>, p: nat, c: seq<Word>)
    requires p <= |a|
    ensures Splice(a + b, p, c) == Splice(a, p, c) + b
  {
    assert (a + b)[..p] == a[..p];
    assert (a + b)[p..] == a[p..] + b;
  }

  /** Raise the word count of the instruction whose first word is `w` by one.
      The count is a `u16`; it wraps as in a release build. */
  function Raise(w: Word): (r: Word)
    ensures LoWord(r) == LoWord(w)
    ensures HiWord(w) < 0xFFFF ==> HiWord(r) == HiWord(w) + 1
  {
    EncodeWord((HiWord(w) + 1) % 0x1_0000, LoWord(w))
  }

  function BumpAt(s: seq<Word>, h: nat): (r: seq<Word>)
    requires h < |s|
    ensures |r| == |s|
  {
    s[h := Raise(s[h])]
  }

  /** Raising a word in front of every place commutes with the merge. */
  lemma {:induction false} MergeBump(t: seq<Word>, h: nat, f: seq<Place>)
    requires Ordered(f) && Within(f, |t|) && h < |t|
    requires forall j :: 0 <= j < |f| ==> h < f[j].pos
    ensures h < |Merge(t, f)|
    ensures BumpAt(Merge(t, f), h) == Merge(BumpAt(t, h), f)
    decreases |f|
  {
    if f != [] {
      var last := f[|f| - 1];
      var init := f[..|f| - 1];
      assert BumpAt(t, h)[..last.pos] == BumpAt(t[..last.pos], h);
      assert BumpAt(t, h)[last.pos..] == t[last.pos..];
      MergeBump(t[..last.pos], h, init);
    }
  }

  /** The heads raised by the word inserts of a list. */
  predicate HeadsIn(l: seq<Insert>, n: nat)
  {
    forall x :: x in l && x.Word? ==> x.wordInsert.headIdx < n
  }

  function Bumped(s: seq<Word>, l: seq<Insert>): (r: seq<Word>)
    requires HeadsIn(l, |s|)
    ensures |r| == |s|
  {
    if l == [] then s
    else
      var rest := Bumped(s, l[1..]);
      match l[0]
      case Word(w) => BumpAt(rest, w.headIdx)
      case Instruction(_) => rest
  }

  /** What the callers of `insert_new_instructions` guarantee: `spv` is a
      well-formed body and `new_spv` its edited copy (at least as long);
      every instruction insert is anchored at an instruction start; every
      word insert names the start of the instruction containing `idx`; and,
      because the anchor's length is read from the unedited `spv`, no
      instruction is both an anchor and grown by a word insert. */
  predicate EditsFit(spv: seq<Word>, newSpv: seq<Word>,
                     wordInserts: seq<WordInsert>, instructionInserts: seq<InstructionInsert>)
  {
    WellFormed(spv) && |spv| <= |newSpv| &&
    (forall w :: w in wordInserts ==>
       IsStart(spv, w.headIdx) && w.headIdx <= w.idx < w.headIdx + HiWord(spv[w.headIdx])) &&
    (forall i :: i in instructionInserts ==> IsStart(spv, i.previousSpvIdx)) &&
    (forall w, i :: w in wordInserts && i in instructionInserts ==> w.headIdx != i.previousSpvIdx)
  }

  lemma ChainMembers(wordInserts: seq<WordInsert>, instructionInserts: seq<InstructionInsert>, x: Insert)
    requires x in Chain(wordInserts, instructionInserts)
    ensures x.Word? ==> x.wordInsert in wordInserts
    ensures x.Instruction? ==> x.instructionInsert in instructionInserts
  {
    var a, b := WordsOf(wordInserts), InstructionsOf(instructionInserts);
    if x in a {
      var j :| 0 <= j < |a| && a[j] == x;
    } else {
      assert x in b;
      var j :| 0 <= j < |b| && b[j] == x;
    }
  }

  lemma SortedMembers(l: seq<Insert>, x: Insert)
    requires x in SortByKey(l)
    ensures x in l
  {
    SortByKeyPermutes(l);
    assert x in multiset(SortByKey(l));
  }

  /** Under EditsFit, an insert with a smaller key never goes after one with
      a larger key. */
  lemma PlaceMonotone(spv: seq<Word>, newSpv: seq<Word>,
                      wordInserts: seq<WordInsert>, instructionInserts: seq<InstructionInsert>,
                      x: Insert, y: Insert)
    requires EditsFit(spv, newSpv, wordInserts, instructionInserts)
    requires x in Chain(wordInserts, instructionInserts) && y in Chain(wordInserts, instructionInserts)
    requires Key(x) <= Key(y)
    ensures x.Instruction? ==> x.instructionInsert.previousSpvIdx < |spv|
    ensures y.Instruction? ==> y.instructionInsert.previousSpvIdx < |spv|
    ensures PlaceOf(spv, x).pos <= PlaceOf(spv, y).pos <= |spv|
  {
    ChainMembers(wordInserts, instructionInserts, x);
    ChainMembers(wordInserts, instructionInserts, y);
    forall k | IsStart(spv, k) ensures FitsAt(spv, k) {
      StartFits(spv, 0, k);
    }
    match x {
      case Word(w) =>
        match y {
          case Word(v) =>
          case Instruction(i) =>
            if w.headIdx < i.previousSpvIdx {
              StartsApart(spv, w.headIdx, i.previousSpvIdx);
            }
        }
      case Instruction(i) =>
        match y {
          case Word(v) =>
            if i.previousSpvIdx < v.headIdx {
              StartsApart(spv, i.previousSpvIdx, v.headIdx);
            } else if v.headIdx < i.previousSpvIdx {
              StartsApart(spv, v.headIdx, i.previousSpvIdx);
            }
          case Instruction(j) =>
            if i.previousSpvIdx < j.previousSpvIdx {
              StartsApart(spv, i.previousSpvIdx, j.previousSpvIdx);
            }
        }
    }
  }

  /** The inserts in the order `insert_new_instructions` sorts them. */
  function Scheduled(wordInserts: seq<WordInsert>, instructionInserts: seq<InstructionInsert>): seq<Insert>
  {
    SortByKey(Chain(wordInserts, instructionInserts))
  }

  /** A list of inserts that can be merged in one pass over `newSpv`. */
  predicate Schedulable(spv: seq<Word>, newSpv: seq<Word>, l: seq<Insert>)
  {
    Anchored(spv, l) && HeadsIn(l, |newSpv|) &&
    (forall x :: x in l && x.Word? ==> x.wordInsert.headIdx <= x.wordInsert.idx) &&
    Ordered(Places(spv, l)) && Within(Places(spv, l), |newSpv|)
  }

  /** Splicing a word in front of every place and raising a head that lies
      in front of it is the same as merging the word first. */
  lemma MergeWordStep(base: seq<Word>, rest: seq<Place>, pos: nat, word: Word, h: nat)
    requires Ordered(rest) && Within(rest, |base|) && h < pos <= |base| && Above(rest, pos)
    ensures Ordered([Place(pos, [word])] + rest)
    ensures BumpAt(Splice(Merge(base, rest), pos, [word]), h) == Merge(BumpAt(base, h), [Place(pos, [word])] + rest)
  {
    MergeCons(base, pos, [word], rest);
    MergeBump(base, h, [Place(pos, [word])] + rest);
  }

  /** The first place of an ordered list lies in front of all the others,
      and the rest of the list is ordered. */
  lemma {:induction false} OrderedTail(f: seq<Place>)
    requires Ordered(f) && f != []
    ensures Ordered(f[1..])
    ensures Above(f[1..], f[0].pos)
    decreases |f|
  {
    if |f| > 2 {
      var init := f[..|f| - 1];
      OrderedTail(init);
      assert f[1..][..|f| - 2] == init[1..];
      assert f[1..][|f| - 2] == f[|f| - 1];
      assert init[0] == f[0];
      forall j | 0 <= j < |f[1..]| ensures f[0].pos <= f[1..][j].pos {
        if j < |f| - 2 {
          assert f[1..][j] == init[1..][j];
        }
      }
    }
  }

  /** Dropping the first insert keeps the list schedulable, and the first
      insert's place lies in front of all the others. */
  lemma TailSchedulable(spv: seq<Word>, newSpv: seq<Word>, l: seq<Insert>)
    requires Schedulable(spv, newSpv, l) && l != []
    ensures Schedulable(spv, newSpv, l[1..])
    ensures l[0].Instruction? ==> l[0].instructionInsert.previousSpvIdx < |spv|
    ensures l[0].Word? ==> l[0].wordInsert.headIdx <= l[0].wordInsert.idx < |newSpv|
    ensures Places(spv, l) == [PlaceOf(spv, l[0])] + Places(spv, l[1..])
    ensures PlaceOf(spv, l[0]).pos <= |newSpv|
    ensures Above(Places(spv, l[1..]), PlaceOf(spv, l[0]).pos)
  {
    assert l[0] in l;
    assert forall x :: x in l[1..] ==> x in l;
    var f := Places(spv, l);
    assert f[1..] == Places(spv, l[1..]);
    OrderedTail(f);
    WithinTail(f, |newSpv|);
  }

  lemma WithinTail(f: seq<Place>, n: nat)
    requires Within(f, n) && f != []
    ensures Within(f[1..], n)
  {
    assert forall j :: 0 <= j < |f| - 1 ==> f[1..][j] == f[j + 1];
  }

  lemma {:induction false} SuffixSchedulable(spv: seq<Word>, newSpv: seq<Word>, l: seq<Insert>, i: nat)
    requires Schedulable(spv, newSpv, l) && i <= |l|
    ensures Schedulable(spv, newSpv, l[i..])
    decreases i
  {
    if i > 0 {
      TailSchedulable(spv, newSpv, l);
      SuffixSchedulable(spv, newSpv, l[1..], i - 1);
      assert l[1..][i - 1..] == l[i..];
    }
  }

  /** One step of the reversed loop for a word insert. */
  lemma ScheduleWordStep(spv: seq<Word>, newSpv: seq<Word>, l: seq<Insert>)
    requires Schedulable(spv, newSpv, l) && l != [] && l[0].Word? && Schedulable(spv, newSpv, l[1..])
    ensures l[0].wordInsert.headIdx <= l[0].wordInsert.idx < |newSpv|
    ensures BumpAt(Splice(Merge(Bumped(newSpv, l[1..]), Places(spv, l[1..])), l[0].wordInsert.idx + 1, [l[0].wordInsert.word]),
                   l[0].wordInsert.headIdx)
            == Merge(Bumped(newSpv, l), Places(spv, l))
  {
    TailSchedulable(spv, newSpv, l);
    var w := l[0].wordInsert;
    var b := Bumped(newSpv, l[1..]);
    var rest := Places(spv, l[1..]);
    var bumped := BumpAt(b, w.headIdx);
    var places := [Place(w.idx + 1, [w.word])] + rest;
    assert Bumped(newSpv, l) == bumped;
    assert PlaceOf(spv, l[0]) == Place(w.idx + 1, [w.word]);
    assert Places(spv, l) == places;
    MergeWordStep(b, rest, w.idx + 1, w.word, w.headIdx);
    assert Merge(bumped, places) == Merge(Bumped(newSpv, l), Places(spv, l));
  }

  /** One step of the reversed loop for an instruction insert. */
  lemma ScheduleInstructionStep(spv: seq<Word>, newSpv: seq<Word>, l: seq<Insert>)
    requires Schedulable(spv, newSpv, l) && l != [] && l[0].Instruction?
    ensures Schedulable(spv, newSpv, l[1..])
    ensures l[0].instructionInsert.previousSpvIdx < |spv|
    ensures PlaceOf(spv, l[0]).pos <= |newSpv|
    ensures Splice(Merge(Bumped(newSpv, l[1..]), Places(spv, l[1..])), PlaceOf(spv, l[0]).pos, l[0].instructionInsert.instruction)
            == Merge(Bumped(newSpv, l), Places(spv, l))
  {
    TailSchedulable(spv, newSpv, l);
    var p := PlaceOf(spv, l[0]);
    var b := Bumped(newSpv, l[1..]);
    assert Bumped(newSpv, l) == b;
    MergeCons(b, p.pos, p.content, Places(spv, l[1..]));
  }

  /** The sorted inserts can be merged in one pass. */
  lemma ScheduleFits(spv: seq<Word>, newSpv: seq<Word>,
                     wordInserts: seq<WordInsert>, instructionInserts: seq<InstructionInsert>)
    requires EditsFit(spv, newSpv, wordInserts, instructionInserts)
    ensures Schedulable(spv, newSpv, Scheduled(wordInserts, instructionInserts))
  {
    var c := Chain(wordInserts, instructionInserts);
    var l := Scheduled(wordInserts, instructionInserts);
    forall x | x in l
      ensures x in c
      ensures x.Instruction? ==> x.instructionInsert.previousSpvIdx < |spv|
      ensures PlaceOf(spv, x).pos <= |spv|
      ensures x.Word? ==> x.wordInsert.headIdx <= x.wordInsert.idx
    {
      SortedMembers(c, x);
      ChainMembers(wordInserts, instructionInserts, x);
      PlaceMonotone(spv, newSpv, wordInserts, instructionInserts, x, x);
    }
    var f := Places(spv, l);
    SortByKeySorted(c);
    forall j | 0 <= j < |f| ensures f[j] == PlaceOf(spv, l[j]) {
      PlacesAt(spv, l, j);
    }
    forall j, k | 0 <= j < k < |f| ensures f[j].pos <= f[k].pos {
      assert l[j] in l && l[k] in l;
      PlaceMonotone(spv, newSpv, wordInserts, instructionInserts, l[j], l[k]);
    }
    OrderedPairs(f);
  }

  /** The inner loop of an instruction insert: `Vec::insert` of each word
      in turn at consecutive offsets. */
  method InsertWords(s: seq<Word>, pos: nat, words: seq<Word>) returns (r: seq<Word>)
    requires pos <= |s|
    ensures r == Splice(s, pos, words)
  {
    r := s;
    for k := 0 to |words|
      invariant r == s[..pos] + words[..k] + s[pos..]
    {
      r := r[..pos + k] + [words[k]] + r[pos + k..];
      assert words[..k + 1] == words[..k] + [words[k]];
    }
    assert words[..|words|] == words;
  }

  /** One turn of the reversed loop: apply the first insert of `t` to the
      stream in which the rest of `t` is already applied. */
  method ApplyInsert(spv: seq<Word>, newSpv: seq<Word>, t: seq<Insert>, cur: seq<Word>) returns (out: seq<Word>)
    requires Schedulable(spv, newSpv, t) && t != [] && Schedulable(spv, newSpv, t[1..])
    requires cur == Merge(Bumped(newSpv, t[1..]), Places(spv, t[1..]))
    ensures out == Merge(Bumped(newSpv, t), Places(spv, t))
  {
    if t[0].Word? {
      out := ApplyWordInsert(spv, newSpv, t, cur);
    } else {
      out := ApplyInstructionInsert(spv, newSpv, t, cur);
    }
  }

  /** A word insert: splice the word in after offset `idx` and raise the
      word count of the instruction it joins. */
  method ApplyWordInsert(spv: seq<Word>, newSpv: seq<Word>, t: seq<Insert>, cur: seq<Word>) returns (out: seq<Word>)
    requires Schedulable(spv, newSpv, t) && t != [] && t[0].Word? && Schedulable(spv, newSpv, t[1..])
    requires cur == Merge(Bumped(newSpv, t[1..]), Places(spv, t[1..]))
    ensures out == Merge(Bumped(newSpv, t), Places(spv, t))
  {
    var w := t[0].wordInsert;
    WordStepFits(spv, newSpv, t, cur);
    ghost var spliced := Splice(cur, w.idx + 1, [w.word]);
    out := cur[..w.idx + 1] + [w.word] + cur[w.idx + 1..];
    assert out == spliced;
    out := out[w.headIdx := EncodeWord((HiWord(out[w.headIdx]) + 1) % 0x1_0000, LoWord(out[w.headIdx]))];
    assert out == BumpAt(spliced, w.headIdx);
    WordStepResult(spv, newSpv, t, cur, out);
  }

  /** The offsets a word insert touches lie inside the stream edited so far. */
  lemma WordStepFits(spv: seq<Word>, newSpv: seq<Word>, t: seq<Insert>, cur: seq<Word>)
    requires Schedulable(spv, newSpv, t) && t != [] && t[0].Word? && Schedulable(spv, newSpv, t[1..])
    requires cur == Merge(Bumped(newSpv, t[1..]), Places(spv, t[1..]))
    ensures t[0].wordInsert.headIdx <= t[0].wordInsert.idx < |cur|
  {
    ScheduleWordStep(spv, newSpv, t);
    InsertedLength(spv, newSpv, t[1..]);
  }

  /** Splicing the word in and raising its head's count completes the
      step. */
  lemma WordStepResult(spv: seq<Word>, newSpv: seq<Word>, t: seq<Insert>, cur: seq<Word>, out: seq<Word>)
    requires Schedulable(spv, newSpv, t) && t != [] && t[0].Word? && Schedulable(spv, newSpv, t[1..])
    requires cur == Merge(Bumped(newSpv, t[1..]), Places(spv, t[1..]))
    requires t[0].wordInsert.headIdx <= t[0].wordInsert.idx < |cur|
    requires out == BumpAt(Splice(cur, t[0].wordInsert.idx + 1, [t[0].wordInsert.word]), t[0].wordInsert.headIdx)
    ensures out == Merge(Bumped(newSpv, t), Places(spv, t))
  {
    ScheduleWordStep(spv, newSpv, t);
  }

  /** An instruction insert: splice the instruction in after the one at
      `previousSpvIdx` of the unedited stream. */
  method ApplyInstructionInsert(spv: seq<Word>, newSpv: seq<Word>, t: seq<Insert>, cur: seq<Word>) returns (out: seq<Word>)
    requires Schedulable(spv, newSpv, t) && t != [] && t[0].Instruction? && Schedulable(spv, newSpv, t[1..])
    requires cur == Merge(Bumped(newSpv, t[1..]), Places(spv, t[1..]))
    ensures out == Merge(Bumped(newSpv, t), Places(spv, t))
  {
    var ins := t[0].instructionInsert;
    ScheduleInstructionStep(spv, newSpv, t);
    var offset := HiWord(spv[ins.previousSpvIdx]);
    out := InsertWords(cur, ins.previousSpvIdx + offset, ins.instruction);
    assert ins.previousSpvIdx + offset == PlaceOf(spv, t[0]).pos;
  }

  /** `insert_new_instructions`: apply the sorted inserts from the last to the
      first, so that every splice happens in front of the ones already made
      and the offsets of the unedited stream stay valid. The result is the
      edited stream with every word insert's head raised once, and every
      insert's words spliced at its place. */
  method InsertNewInstructions(spv: seq<Word>, newSpv: seq<Word>,
                               wordInserts: seq<WordInsert>, instructionInserts: seq<InstructionInsert>)
    returns (out: seq<Word>)
    requires (wordInserts == [] && instructionInserts == []) || EditsFit(spv, newSpv, wordInserts, instructionInserts)
    ensures Schedulable(spv, newSpv, Scheduled(wordInserts, instructionInserts))
    ensures out == Merge(Bumped(newSpv, Scheduled(wordInserts, instructionInserts)),
                         Places(spv, Scheduled(wordInserts, instructionInserts)))
  {
    if wordInserts == [] && instructionInserts == [] {
      assert Chain(wordInserts, instructionInserts) == [];
    } else {
      ScheduleFits(spv, newSpv, wordInserts, instructionInserts);
    }
    var inserts := SortByKey(Chain(wordInserts, instructionInserts));
    out := newSpv;
    var i := |inserts|;
    SuffixSchedulable(spv, newSpv, inserts, i);
    assert inserts[i..] == [];
    while i > 0
      invariant 0 <= i <= |inserts|
      invariant Schedulable(spv, newSpv, inserts[i..])
      invariant out == Merge(Bumped(newSpv, inserts[i..]), Places(spv, inserts[i..]))
    {
      i := i - 1;
      SuffixSchedulable(spv, newSpv, inserts, i);
      assert inserts[i..][1..] == inserts[i + 1..];
      out := ApplyInsert(spv, newSpv, inserts[i..], out);
    }
    assert inserts[0..] == inserts;
  }

  // ---------------------------------------------------------------------
  // What the splice does to the stream.

  /** Words spliced in front of or at offset `i` of the unedited stream. */
  function ShiftAt(f: seq<Place>, i: nat): nat
  {
    if f == [] then 0
    else ShiftAt(f[..|f| - 1], i) + (if f[|f| - 1].pos <= i then |f[|f| - 1].content| else 0)
  }

  lemma {:induction false} ShiftAtAll(f: seq<Place>, i: nat)
    requires forall j :: 0 <= j < |f| ==> f[j].pos <= i
    ensures ShiftAt(f, i) == TotalContent(f)
  {
    if f != [] {
      ShiftAtAll(f[..|f| - 1], i);
    }
  }

  lemma {:induction false} ShiftAtNone(f: seq<Place>, i: nat)
    requires forall j :: 0 <= j < |f| ==> i < f[j].pos
    ensures ShiftAt(f, i) == 0
  {
    if f != [] {
      ShiftAtNone(f[..|f| - 1], i);
    }
  }

  /** Every word of the unedited stream survives the merge, in order: word
      `i` moves up by the number of words spliced in front of or at it. */
  lemma {:induction false} MergeOriginal(s: seq<Word>, f: seq<Place>, i: nat)
    requires Ordered(f) && Within(f, |s|) && i < |s|
    ensures i + ShiftAt(f, i) < |Merge(s, f)|
    ensures Merge(s, f)[i + ShiftAt(f, i)] == s[i]
    decreases |f|
  {
    if f != [] {
      var last := f[|f| - 1];
      var init := f[..|f| - 1];
      if i < last.pos {
        MergeOriginal(s[..last.pos], init, i);
      } else {
        ShiftAtAll(init, i);
      }
    }
  }

  lemma {:induction false} TotalContentPrefix(f: seq<Place>, a: nat, b: nat)
    requires a <= b <= |f|
    ensures TotalContent(f[..a]) <= TotalContent(f[..b])
    decreases b - a
  {
    if a < b {
      TotalContentPrefix(f, a, b - 1);
      assert f[..b][..b - 1] == f[..b - 1];
    }
  }

  /** Each place's content appears in the merge as one block, after the
      unedited words in front of its offset and after the contents of the
      places listed before it. */
  lemma {:induction false} MergeContent(s: seq<Word>, f: seq<Place>, j: nat)
    requires Ordered(f) && Within(f, |s|) && j < |f|
    ensures f[j].pos + TotalContent(f[..j]) + |f[j].content| <= |Merge(s, f)|
    ensures Merge(s, f)[f[j].pos + TotalContent(f[..j])..f[j].pos + TotalContent(f[..j]) + |f[j].content|] == f[j].content
    decreases |f|
  {
    var last := f[|f| - 1];
    var init := f[..|f| - 1];
    var front := Merge(s[..last.pos], init);
    assert Merge(s, f) == front + last.content + s[last.pos..];
    if j < |f| - 1 {
      assert init[..j] == f[..j];
      MergeContent(s[..last.pos], init, j);
      var a := f[j].pos + TotalContent(f[..j]);
      SliceFront(front, last.content + s[last.pos..], a, a + |f[j].content|);
      assert front + last.content + s[last.pos..] == front + (last.content + s[last.pos..]);
      assert Merge(s, f)[a..a + |f[j].content|] == front[a..a + |f[j].content|];
    } else {
      MergeContentLast(s, f);
    }
  }

  /** The block of the last place. */
  lemma MergeContentLast(s: seq<Word>, f: seq<Place>)
    requires Ordered(f) && Within(f, |s|) && f != []
    ensures var j := |f| - 1;
            f[j].pos + TotalContent(f[..j]) + |f[j].content| <= |Merge(s, f)| &&
            Merge(s, f)[f[j].pos + TotalContent(f[..j])..f[j].pos + TotalContent(f[..j]) + |f[j].content|] == f[j].content
  {
    var last := f[|f| - 1];
    var init := f[..|f| - 1];
    var front := Merge(s[..last.pos], init);
    assert Merge(s, f) == front + last.content + s[last.pos..];
    assert |front| == last.pos + TotalContent(init);
    SliceMiddle(front, last.content, s[last.pos..]);
  }

  lemma SliceFront(a: seq<Word>, b: seq<Word>, i: nat, k: nat)
    requires i <= k <= |a|
    ensures (a + b)[i..k] == a[i..k]
  {
  }

  lemma SliceMiddle(a: seq<Word>, c: seq<Word>, b: seq<Word>)
    ensures (a + c + b)[|a|..|a| + |c|] == c
  {
  }

  /** Contents come out in list order: the block of an earlier place ends
      before the block of a later one starts. */
  lemma ContentsInOrder(f: seq<Place>, j: nat, k: nat)
    requires Ordered(f) && j < k < |f|
    ensures f[j].pos + TotalContent(f[..j]) + |f[j].content| <= f[k].pos + TotalContent(f[..k])
  {
    OrderedPairs(f);
    assert f[..j + 1][..j] == f[..j];
    TotalContentPrefix(f, j + 1, k);
  }

  lemma {:induction false} TotalContentCons(p: Place, f: seq<Place>)
    ensures TotalContent([p] + f) == |p.content| + TotalContent(f)
    decreases |f|
  {
    if f == [] {
      assert ([p] + f)[..0] == [];
    } else {
      assert ([p] + f)[..|f|] == [p] + f[..|f| - 1];
      TotalContentCons(p, f[..|f| - 1]);
    }
  }

  lemma {:induction false} TotalContentPlaces(spv: seq<Word>, l: seq<Insert>)
    requires Anchored(spv, l)
    ensures TotalContent(Places(spv, l)) == SumOf(Weight, l)
  {
    if l != [] {
      assert forall x :: x in l[1..] ==> x in l;
      TotalContentPlaces(spv, l[1..]);
      assert Places(spv, l) == [PlaceOf(spv, l[0])] + Places(spv, l[1..]);
      TotalContentCons(PlaceOf(spv, l[0]), Places(spv, l[1..]));
    }
  }

  /** Total number of words in the instruction inserts. */
  function InstructionWords(instructionInserts: seq<InstructionInsert>): nat
  {
    if instructionInserts == [] then 0
    else |instructionInserts[0].instruction| + InstructionWords(instructionInserts[1..])
  }

  lemma {:induction false} WordsWeight(wordInserts: seq<WordInsert>)
    ensures SumOf(Weight, WordsOf(wordInserts)) == |wordInserts|
  {
    if wordInserts != [] {
      WordsWeight(wordInserts[1..]);
      assert WordsOf(wordInserts)[1..] == WordsOf(wordInserts[1..]);
    }
  }

  lemma {:induction false} InstructionsWeight(instructionInserts: seq<InstructionInsert>)
    ensures SumOf(Weight, InstructionsOf(instructionInserts)) == InstructionWords(instructionInserts)
  {
    if instructionInserts != [] {
      InstructionsWeight(instructionInserts[1..]);
      assert InstructionsOf(instructionInserts)[1..] == InstructionsOf(instructionInserts[1..]);
    }
  }

  lemma ChainWeight(wordInserts: seq<WordInsert>, instructionInserts: seq<InstructionInsert>)
    ensures SumOf(Weight, Chain(wordInserts, instructionInserts)) == |wordInserts| + InstructionWords(instructionInserts)
  {
    SumOfAppend(Weight, WordsOf(wordInserts), InstructionsOf(instructionInserts));
    WordsWeight(wordInserts);
    InstructionsWeight(instructionInserts);
  }

  /** The sorted list adds one word per word insert plus every word of
      every instruction insert. */
  lemma ScheduledWeight(wordInserts: seq<WordInsert>, instructionInserts: seq<InstructionInsert>)
    ensures SumOf(Weight, Scheduled(wordInserts, instructionInserts))
            == |wordInserts| + InstructionWords(instructionInserts)
  {
    SumOfSortByKey(Weight, Chain(wordInserts, instructionInserts));
    ChainWeight(wordInserts, instructionInserts);
  }

  /** The output is as long as the edited stream plus the words of all the
      inserts. */
  lemma InsertedLength(spv: seq<Word>, newSpv: seq<Word>, l: seq<Insert>)
    requires Schedulable(spv, newSpv, l)
    ensures |Merge(Bumped(newSpv, l), Places(spv, l))| == |newSpv| + SumOf(Weight, l)
  {
    TotalContentPlaces(spv, l);
  }

  /** Raise a first word's count by `n`, wrapping at 16 bits. */
  function RaiseBy(w: Word, n: nat): (r: Word)
    ensures LoWord(r) == LoWord(w)
    ensures HiWord(w) + n < 0x1_0000 ==> HiWord(r) == HiWord(w) + n
  {
    EncodeWord((HiWord(w) + n) % 0x1_0000, LoWord(w))
  }

  lemma RaiseOnce(w: Word, n: nat)
    ensures Raise(RaiseBy(w, n)) == RaiseBy(w, n + 1)
  {
    var h := HiWord(w) + n;
    var x := RaiseBy(w, n);
    assert HiWord(x) == h % 0x1_0000 && LoWord(x) == LoWord(w);
    ModSucc(h);
    assert (HiWord(x) + 1) % 0x1_0000 == (h + 1) % 0x1_0000;
  }

  /** Counting on by one commutes with wrapping at 16 bits. */
  lemma ModSucc(h: nat)
    ensures (h % 0x1_0000 + 1) % 0x1_0000 == (h + 1) % 0x1_0000
  {
    var q, m := h / 0x1_0000, h % 0x1_0000;
    assert h == q * 0x1_0000 + m;
    if m + 1 < 0x1_0000 {
      assert h + 1 == q * 0x1_0000 + (m + 1);
    } else {
      assert h + 1 == (q + 1) * 0x1_0000;
    }
  }

  /** Counts the word inserts whose head is `k`. */
  function CountsHead(k: nat): Insert -> nat
  {
    (x: Insert) => if x.Word? && x.wordInsert.headIdx == k then 1 else 0
  }

  /** Number of word inserts that grow the instruction starting at `k`. */
  function HeadCount(wordInserts: seq<WordInsert>, k: nat): nat
  {
    if wordInserts == [] then 0
    else (if wordInserts[0].headIdx == k then 1 else 0) + HeadCount(wordInserts[1..], k)
  }

  /** Every word of the edited stream is raised once per word insert whose
      head it is; the others are untouched. */
  lemma {:induction false} BumpedAt(s: seq<Word>, l: seq<Insert>, k: nat)
    requires HeadsIn(l, |s|) && k < |s|
    ensures Bumped(s, l)[k] == RaiseBy(s[k], SumOf(CountsHead(k), l))
  {
    if l == [] {
      assert RaiseBy(s[k], 0) == s[k];
    } else {
      assert forall x :: x in l[1..] ==> x in l;
      BumpedAt(s, l[1..], k);
      var n := SumOf(CountsHead(k), l[1..]);
      match l[0] {
        case Word(w) =>
          if w.headIdx == k {
            RaiseOnce(s[k], n);
          }
        case Instruction(_) =>
      }
    }
  }

  lemma {:induction false} WordsHeadCount(wordInserts: seq<WordInsert>, k: nat)
    ensures SumOf(CountsHead(k), WordsOf(wordInserts)) == HeadCount(wordInserts, k)
  {
    if wordInserts != [] {
      WordsHeadCount(wordInserts[1..], k);
      assert WordsOf(wordInserts)[1..] == WordsOf(wordInserts[1..]);
    }
  }

  lemma {:induction false} InstructionsHeadCount(instructionInserts: seq<InstructionInsert>, k: nat)
    ensures SumOf(CountsHead(k), InstructionsOf(instructionInserts)) == 0
  {
    if instructionInserts != [] {
      InstructionsHeadCount(instructionInserts[1..], k);
      assert InstructionsOf(instructionInserts)[1..] == InstructionsOf(instructionInserts[1..]);
    }
  }

  /** The sorted list holds as many word inserts with head `k` as the
      given list. */
  lemma ScheduledHeadCount(wordInserts: seq<WordInsert>, instructionInserts: seq<InstructionInsert>, k: nat)
    ensures SumOf(CountsHead(k), Scheduled(wordInserts, instructionInserts)) == HeadCount(wordInserts, k)
  {
    SumOfSortByKey(CountsHead(k), Chain(wordInserts, instructionInserts));
    SumOfAppend(CountsHead(k), WordsOf(wordInserts), InstructionsOf(instructionInserts));
    WordsHeadCount(wordInserts, k);
    InstructionsHeadCount(instructionInserts, k);
  }

  /** Each word of the edited stream reappears in the output, moved up by
      the words spliced in front of or at it, with its word count raised by
      the number of word inserts whose head it is and its opcode kept. */
  lemma HeadsRaised(spv: seq<Word>, newSpv: seq<Word>, l: seq<Insert>, k: nat)
    requires Schedulable(spv, newSpv, l) && k < |newSpv|
    ensures k + ShiftAt(Places(spv, l), k) < |Merge(Bumped(newSpv, l), Places(spv, l))|
    ensures Merge(Bumped(newSpv, l), Places(spv, l))[k + ShiftAt(Places(spv, l), k)]
            == RaiseBy(newSpv[k], SumOf(CountsHead(k), l))
  {
    var b, f := Bumped(newSpv, l), Places(spv, l);
    MergeOriginal(b, f, k);
    BumpedAt(newSpv, l, k);
    assert Merge(b, f)[k + ShiftAt(f, k)] == b[k];
  }
}
