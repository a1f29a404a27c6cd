/** `push_affected_decorations` (src/mirrorpatch.rs): given the
    corrections `l` one module has after a binding and the corrections `r`
    the other module has after the same binding, queue a new variable in the
    other module for every entry of `l` that `r` lacks, counting entries as
    a multiset. */
module AffectedDecorations {
  import opened Words
  import opened Options
  import opened Correction

  /** A variable to add to a module: its descriptor set and binding, its
      fresh result id, and what kind of correction it stands for. */
  datatype NewVariable = NewVariable(descriptorSet: Word, binding: Word, newResId: Word, correctionType: CorrectionType)

  /** `u32` addition as the release build performs it: the sum less
      2^32 as often as it takes to fit. */
  function Wrap(n: nat): Word
  {
    if n < 0x1_0000_0000 then n else Wrap(n - 0x1_0000_0000)
  }

  /** The wrapped sum is the sum modulo 2^32. */
  lemma {:induction false} WrapMod(n: nat)
    ensures Wrap(n) == n % 0x1_0000_0000
  {
    if n >= 0x1_0000_0000 {
      WrapMod(n - 0x1_0000_0000);
    }
  }

  /** Wrapping part of a sum first changes nothing. */
  lemma {:induction false} WrapAdd(n: nat, m: nat)
    ensures Wrap(Wrap(n) + m) == Wrap(n + m)
  {
    if n >= 0x1_0000_0000 {
      WrapAdd(n - 0x1_0000_0000, m);
    }
  }

  // ---------------------------------------------------------------------
  // Cancelling: every entry of `r` strikes out the first entry of `l` that
  // is equal to it and not yet struck out.

  /** `l.corrections.iter().map(Some)`: every entry still standing. */
  function Standing(cs: seq<CorrectionType>): (ll: seq<Option<CorrectionType>>)
    ensures |ll| == |cs|
    ensures forall i :: 0 <= i < |cs| ==> ll[i] == Some(cs[i])
  {
    seq(|cs|, i requires 0 <= i < |cs| => Some(cs[i]))
  }

  /** The position of the first standing entry equal to `c`. */
  function FirstStanding(ll: seq<Option<CorrectionType>>, c: CorrectionType): (r: Option<nat>)
    ensures r.Some? ==> r.value < |ll| && ll[r.value] == Some(c)
    ensures r.Some? ==> forall j :: 0 <= j < r.value ==> ll[j] != Some(c)
    ensures r.None? ==> forall j :: 0 <= j < |ll| ==> ll[j] != Some(c)
  {
    if ll == [] then None
    else if ll[0] == Some(c) then Some(0)
    else
      match FirstStanding(ll[1..], c)
      case None => None
      case Some(p) => Some(p + 1)
  }

  /** One entry of `r` strikes out the first equal standing entry, if any. */
  function CancelOne(ll: seq<Option<CorrectionType>>, c: CorrectionType): seq<Option<CorrectionType>>
  {
    match FirstStanding(ll, c)
    case Some(i) => ll[i := None]
    case None => ll
  }

  /** The entries of `rs`, in order, each strike out one entry. */
  function Cancel(ll: seq<Option<CorrectionType>>, rs: seq<CorrectionType>): seq<Option<CorrectionType>>
  {
    if rs == [] then ll else CancelOne(Cancel(ll, rs[..|rs| - 1]), rs[|rs| - 1])
  }

  /** The entries still standing, in order. */
  function Remaining(ll: seq<Option<CorrectionType>>): seq<CorrectionType>
  {
    if ll == [] then []
    else (if ll[0].Some? then [ll[0].value] else []) + Remaining(ll[1..])
  }

  /** The positions of the entries still standing, in order. */
  function StandingAt(ll: seq<Option<CorrectionType>>): seq<nat>
  {
    if ll == [] then []
    else (if ll[0].Some? then [0] else []) + Shift(StandingAt(ll[1..]))
  }

  function Shift(ps: seq<nat>): (r: seq<nat>)
    ensures |r| == |ps| && forall j :: 0 <= j < |ps| ==> r[j] == ps[j] + 1
  {
    seq(|ps|, j requires 0 <= j < |ps| => ps[j] + 1)
  }

  /** The number of struck-out entries among `ll`. */
  function Struck(ll: seq<Option<CorrectionType>>): nat
  {
    if ll == [] then 0 else (if ll[0].None? then 1 else 0) + Struck(ll[1..])
  }

  /** What the emitting loop pushes, walking `ll` with the current binding
      offset and the bound before the increment. */
  function Emitted(ll: seq<Option<CorrectionType>>, descriptorSet: Word, binding: Word, offset: nat, bound: nat): seq<NewVariable>
  {
    if ll == [] then []
    else
      match ll[0]
      case Some(c) => [NewVariable(descriptorSet, Wrap(binding + offset), Wrap(bound), c)] + Emitted(ll[1..], descriptorSet, binding, offset, bound + 1)
      case None => Emitted(ll[1..], descriptorSet, binding, offset + 1, bound)
  }

  /** What `push_affected_decorations` queues for the pair `l`, `r`. */
  function Affected(descriptorSet: Word, binding: Word, bound: Word, l: CorrectionBinding, r: CorrectionBinding): seq<NewVariable>
  {
    Emitted(Cancel(Standing(l.corrections), r.corrections), descriptorSet, binding, 0, bound)
  }

  // ---------------------------------------------------------------------
  // The method.

  lemma EmittedStep(ll: seq<Option<CorrectionType>>, j: nat, descriptorSet: Word, binding: Word, offset: nat, bound: nat)
    requires j < |ll|
    ensures ll[j].Some? ==>
              (Emitted(ll[j..], descriptorSet, binding, offset, bound) ==
               [NewVariable(descriptorSet, Wrap(binding + offset), Wrap(bound), ll[j].value)] +
               Emitted(ll[j + 1..], descriptorSet, binding, offset, bound + 1))
    ensures ll[j].None? ==>
              (Emitted(ll[j..], descriptorSet, binding, offset, bound) ==
               Emitted(ll[j + 1..], descriptorSet, binding, offset + 1, bound))
  {
    assert ll[j..][1..] == ll[j + 1..];
  }

  /** Incrementing, then subtracting one, in wrapping `u32` arithmetic. */
  lemma WrapStep(n: nat)
    ensures Wrap(Wrap(n) + 1) == Wrap(n + 1)
    ensures Wrap(Wrap(n + 1) + 0xFFFF_FFFF) == Wrap(n)
  {
    WrapAdd(n, 1);
    WrapAdd(n + 1, 0xFFFF_FFFF);
  }

  /** `ll.iter().find(...)`: the first standing entry equal to `c`. */
  method FindStanding(ll: seq<Option<CorrectionType>>, c: CorrectionType) returns (r: Option<nat>)
    ensures r == FirstStanding(ll, c)
  {
    var i := 0;
    while i < |ll|
      invariant i <= |ll|
      invariant forall j :: 0 <= j < i ==> ll[j] != Some(c)
    {
      if ll[i] == Some(c) {
        return Some(i);
      }
      i := i + 1;
    }
    return None;
  }

  /** `push_affected_decorations`: strike out the entries of `l` that `r`
      matches, then walk `l`, giving each remaining entry a fresh id and
      its binding shifted by the number of entries struck out before it.
      The bound and the binding offset wrap as `u32` does in a release
      build. */
  method PushAffectedDecorations(newVariables: seq<NewVariable>, instructionBound: Word,
                                 descriptorSet: Word, binding: Word, l: CorrectionBinding, r: CorrectionBinding)
    returns (outVariables: seq<NewVariable>, outBound: Word)
    ensures outVariables == newVariables + Affected(descriptorSet, binding, instructionBound, l, r)
    ensures outBound == Wrap(instructionBound + |Affected(descriptorSet, binding, instructionBound, l, r)|)
  {
    var ll := Standing(l.corrections);
    for k := 0 to |r.corrections|
      invariant ll == Cancel(Standing(l.corrections), r.corrections[..k])
    {
      assert r.corrections[..k + 1][..k] == r.corrections[..k];
      var found := FindStanding(ll, r.corrections[k]);
      if found.Some? {
        ll := ll[found.value := None];
      }
    }
    assert r.corrections[..|r.corrections|] == r.corrections;

    outVariables, outBound := newVariables, instructionBound;
    var offset: nat := 0;
    ghost var count: nat := 0;
    for j := 0 to |ll|
      invariant outVariables + Emitted(ll[j..], descriptorSet, binding, offset, instructionBound + count) ==
                newVariables + Emitted(ll, descriptorSet, binding, 0, instructionBound)
      invariant |outVariables| == |newVariables| + count
      invariant outBound == Wrap(instructionBound + count)
    {
      EmittedStep(ll, j, descriptorSet, binding, offset, instructionBound + count);
      if ll[j].Some? {
        WrapStep(instructionBound + count);
        outBound := Wrap(outBound + 1);
        var newResId := Wrap(outBound + 0xFFFF_FFFF);
        outVariables := outVariables + [NewVariable(descriptorSet, Wrap(binding + offset), newResId, ll[j].value)];
        count := count + 1;
      } else {
        offset := offset + 1;
      }
    }
  }

  // ---------------------------------------------------------------------
  // What is cancelled.

  /** Cancelling only strikes entries out: it never moves or adds one. */
  lemma {:induction false} CancelShape(ll: seq<Option<CorrectionType>>, rs: seq<CorrectionType>)
    ensures |Cancel(ll, rs)| == |ll|
    ensures forall i :: 0 <= i < |ll| ==> Cancel(ll, rs)[i] == ll[i] || Cancel(ll, rs)[i].None?
    decreases |rs|
  {
    if rs != [] {
      CancelShape(ll, rs[..|rs| - 1]);
    }
  }

  /** The number of standing entries of kind `c`. */
  function CountIn(ll: seq<Option<CorrectionType>>, c: CorrectionType): nat
  {
    if ll == [] then 0 else (if ll[0] == Some(c) then 1 else 0) + CountIn(ll[1..], c)
  }

  lemma {:induction false} CountInRemaining(ll: seq<Option<CorrectionType>>, c: CorrectionType)
    ensures multiset(Remaining(ll))[c] == CountIn(ll, c)
  {
    if ll != [] {
      assert Remaining(ll) == (if ll[0].Some? then [ll[0].value] else []) + Remaining(ll[1..]);
      CountInRemaining(ll[1..], c);
    }
  }

  /** Striking out a standing entry removes one entry of its kind. */
  lemma {:induction false} CountStrike(ll: seq<Option<CorrectionType>>, i: nat, c: CorrectionType)
    requires i < |ll| && ll[i].Some?
    ensures CountIn(ll[i := None], c) + (if ll[i] == Some(c) then 1 else 0) == CountIn(ll, c)
  {
    if i == 0 {
      assert ll[i := None][1..] == ll[1..];
    } else {
      assert ll[i := None][1..] == ll[1..][i - 1 := None];
      CountStrike(ll[1..], i - 1, c);
    }
  }

  lemma {:induction false} CountAbsent(ll: seq<Option<CorrectionType>>, c: CorrectionType)
    requires forall j :: 0 <= j < |ll| ==> ll[j] != Some(c)
    ensures CountIn(ll, c) == 0
  {
    if ll != [] {
      CountAbsent(ll[1..], c);
    }
  }

  /** Cancelling by `rs` leaves of each kind as many entries as `ll` has
      beyond those in `rs`, and none if `rs` has at least as many. */
  lemma {:induction false} CancelCount(ll: seq<Option<CorrectionType>>, rs: seq<CorrectionType>, c: CorrectionType)
    ensures CountIn(Cancel(ll, rs), c) == if CountIn(ll, c) <= multiset(rs)[c] then 0 else CountIn(ll, c) - multiset(rs)[c]
    decreases |rs|
  {
    if rs != [] {
      var init, x := rs[..|rs| - 1], rs[|rs| - 1];
      assert rs == init + [x];
      CancelCount(ll, init, c);
      var before := Cancel(ll, init);
      match FirstStanding(before, x) {
        case Some(i) =>
          CountStrike(before, i, c);
        case None =>
          if x == c {
            CountAbsent(before, c);
          }
      }
    }
  }

  /** What stands after cancelling is the multiset difference of what
      stood and the cancelling entries. */
  lemma CancelMultiset(ll: seq<Option<CorrectionType>>, rs: seq<CorrectionType>)
    ensures multiset(Remaining(Cancel(ll, rs))) == multiset(Remaining(ll)) - multiset(rs)
  {
    forall c
      ensures multiset(Remaining(Cancel(ll, rs)))[c] == (multiset(Remaining(ll)) - multiset(rs))[c]
    {
      CountInRemaining(Cancel(ll, rs), c);
      CountInRemaining(ll, c);
      CancelCount(ll, rs, c);
    }
  }

  lemma {:induction false} RemainingStanding(cs: seq<CorrectionType>)
    ensures Remaining(Standing(cs)) == cs
  {
    if cs != [] {
      RemainingStanding(cs[1..]);
      assert Standing(cs)[1..] == Standing(cs[1..]);
    }
  }

  // ---------------------------------------------------------------------
  // What is emitted.

  /** The `j`-th entry left standing sits at a position no smaller than
      `j`, and holds the `j`-th remaining kind. */
  lemma {:induction false} StandingAtShape(ll: seq<Option<CorrectionType>>)
    ensures |StandingAt(ll)| == |Remaining(ll)|
    ensures forall j :: 0 <= j < |StandingAt(ll)| ==>
              j <= StandingAt(ll)[j] < |ll| && ll[StandingAt(ll)[j]] == Some(Remaining(ll)[j])
  {
    if ll != [] {
      StandingAtShape(ll[1..]);
    }
  }

  /** The entries left standing keep their relative order. */
  lemma {:induction false} StandingAtIncreasing(ll: seq<Option<CorrectionType>>)
    ensures forall j, k :: 0 <= j < k < |StandingAt(ll)| ==> StandingAt(ll)[j] < StandingAt(ll)[k]
  {
    if ll != [] {
      StandingAtIncreasing(ll[1..]);
    }
  }

  /** Entry `j` emitted stands for the `j`-th entry left standing: it has
      that entry's kind and the `j`-th id from the bound. */
  lemma {:induction false} EmittedShape(ll: seq<Option<CorrectionType>>, descriptorSet: Word, binding: Word, offset: nat, bound: nat)
    ensures |Emitted(ll, descriptorSet, binding, offset, bound)| == |Remaining(ll)|
    ensures forall j :: 0 <= j < |Remaining(ll)| ==>
              Emitted(ll, descriptorSet, binding, offset, bound)[j].descriptorSet == descriptorSet &&
              Emitted(ll, descriptorSet, binding, offset, bound)[j].newResId == Wrap(bound + j) &&
              Emitted(ll, descriptorSet, binding, offset, bound)[j].correctionType == Remaining(ll)[j]
  {
    if ll != [] {
      var e := Emitted(ll, descriptorSet, binding, offset, bound);
      if ll[0].Some? {
        var e' := Emitted(ll[1..], descriptorSet, binding, offset, bound + 1);
        EmittedShape(ll[1..], descriptorSet, binding, offset, bound + 1);
        assert e == [NewVariable(descriptorSet, Wrap(binding + offset), Wrap(bound), ll[0].value)] + e';
        assert Remaining(ll) == [ll[0].value] + Remaining(ll[1..]);
      } else {
        EmittedShape(ll[1..], descriptorSet, binding, offset + 1, bound);
        assert Remaining(ll) == Remaining(ll[1..]);
      }
    }
  }

  /** The binding of entry `j` emitted is shifted by the number of
      entries struck out in front of the `j`-th entry left standing: its
      position less the `j` entries standing before it. */
  lemma {:induction false} EmittedBinding(ll: seq<Option<CorrectionType>>, descriptorSet: Word, binding: Word, offset: nat, bound: nat)
    ensures forall j :: 0 <= j < |Emitted(ll, descriptorSet, binding, offset, bound)| ==>
              j < |StandingAt(ll)| && j <= StandingAt(ll)[j] &&
              Emitted(ll, descriptorSet, binding, offset, bound)[j].binding == Wrap(binding + offset + StandingAt(ll)[j] - j)
  {
    StandingAtShape(ll);
    EmittedShape(ll, descriptorSet, binding, offset, bound);
    if ll != [] {
      if ll[0].Some? {
        EmittedBinding(ll[1..], descriptorSet, binding, offset, bound + 1);
      } else {
        EmittedBinding(ll[1..], descriptorSet, binding, offset + 1, bound);
      }
    }
  }

  /** Striking-out counts over a prefix one longer. */
  lemma StruckPrefix(ll: seq<Option<CorrectionType>>, p: nat)
    requires p < |ll|
    ensures Struck(ll[..p + 1]) == (if ll[0].None? then 1 else 0) + Struck(ll[1..][..p])
  {
    assert ll[..p + 1][1..] == ll[1..][..p];
  }

  /** Among the entries in front of the `j`-th entry left standing, all
      but `j` are struck out. */
  lemma {:induction false} StruckBefore(ll: seq<Option<CorrectionType>>, j: nat)
    requires j < |StandingAt(ll)|
    ensures StandingAt(ll)[j] <= |ll| && Struck(ll[..StandingAt(ll)[j]]) == StandingAt(ll)[j] - j
  {
    StandingAtCons(ll, j);
    if ll[0].Some? && j == 0 {
      assert ll[..StandingAt(ll)[j]] == [];
    } else {
      var k := if ll[0].Some? then j - 1 else j;
      var q := StandingAt(ll[1..])[k];
      StruckBefore(ll[1..], k);
      StruckPrefix(ll, q);
      StruckStep(ll, q, StandingAt(ll)[j], j, k);
    }
  }

  /** The count over the prefix in front of entry `q + 1` of `ll`, from
      the count in front of entry `q` of the rest. */
  lemma StruckStep(ll: seq<Option<CorrectionType>>, q: nat, p: nat, j: nat, k: nat)
    requires q < |ll| && p == q + 1 && j == k + (if ll[0].Some? then 1 else 0)
    requires Struck(ll[..q + 1]) == (if ll[0].None? then 1 else 0) + Struck(ll[1..][..q])
    requires k <= q && Struck(ll[1..][..q]) == q - k
    ensures Struck(ll[..p]) == p - j
  {
  }

  /** The `j`-th entry left standing, read off the first entry and the
      entries standing in the rest. */
  lemma StandingAtCons(ll: seq<Option<CorrectionType>>, j: nat)
    requires j < |StandingAt(ll)|
    ensures ll != [] && |StandingAt(ll)| == (if ll[0].Some? then 1 else 0) + |StandingAt(ll[1..])|
    ensures ll[0].Some? && j == 0 ==> StandingAt(ll)[j] == 0
    ensures ll[0].Some? && j > 0 ==> StandingAt(ll)[j] == StandingAt(ll[1..])[j - 1] + 1
    ensures ll[0].None? ==> StandingAt(ll)[j] == StandingAt(ll[1..])[j] + 1
  {
  }

  // ---------------------------------------------------------------------
  // What `push_affected_decorations` queues.

  /** The kinds of a list of new variables, in order. */
  function Kinds(vs: seq<NewVariable>): (ks: seq<CorrectionType>)
    ensures |ks| == |vs| && forall j :: 0 <= j < |vs| ==> ks[j] == vs[j].correctionType
  {
    seq(|vs|, j requires 0 <= j < |vs| => vs[j].correctionType)
  }

  /** The kinds queued are exactly those `l` has beyond `r`, counted as a
      multiset. */
  lemma AffectedKinds(descriptorSet: Word, binding: Word, bound: Word, l: CorrectionBinding, r: CorrectionBinding)
    ensures multiset(Kinds(Affected(descriptorSet, binding, bound, l, r))) == multiset(l.corrections) - multiset(r.corrections)
  {
    var ll := Cancel(Standing(l.corrections), r.corrections);
    EmittedShape(ll, descriptorSet, binding, 0, bound);
    assert Kinds(Affected(descriptorSet, binding, bound, l, r)) == Remaining(ll);
    CancelMultiset(Standing(l.corrections), r.corrections);
    RemainingStanding(l.corrections);
  }

  /** Nothing is queued exactly when every correction of `l` is matched by
      one of `r`. */
  lemma AffectedEmpty(descriptorSet: Word, binding: Word, bound: Word, l: CorrectionBinding, r: CorrectionBinding)
    ensures Affected(descriptorSet, binding, bound, l, r) == [] <==> multiset(l.corrections) <= multiset(r.corrections)
  {
    var a := Affected(descriptorSet, binding, bound, l, r);
    var d := multiset(l.corrections) - multiset(r.corrections);
    AffectedKinds(descriptorSet, binding, bound, l, r);
    assert |multiset(Kinds(a))| == |a|;
    if multiset(l.corrections) <= multiset(r.corrections) {
      forall c
        ensures d[c] == 0
      {
      }
      assert d == multiset{};
    } else {
      var c :| multiset(l.corrections)[c] > multiset(r.corrections)[c];
      assert c in d;
    }
  }

  /** The `j`-th variable queued gets the `j`-th id from the bound, and,
      unless the bound wraps, these ids are `bound`, `bound + 1`, ...: all
      fresh if the bound was, and pairwise distinct. */
  lemma AffectedIds(descriptorSet: Word, binding: Word, bound: Word, l: CorrectionBinding, r: CorrectionBinding)
    ensures forall j :: 0 <= j < |Affected(descriptorSet, binding, bound, l, r)| ==>
              Affected(descriptorSet, binding, bound, l, r)[j].newResId == Wrap(bound + j) &&
              Affected(descriptorSet, binding, bound, l, r)[j].descriptorSet == descriptorSet
    ensures bound + |Affected(descriptorSet, binding, bound, l, r)| <= 0x1_0000_0000 ==>
              forall j :: 0 <= j < |Affected(descriptorSet, binding, bound, l, r)| ==>
                Affected(descriptorSet, binding, bound, l, r)[j].newResId == bound + j
  {
    var ll := Cancel(Standing(l.corrections), r.corrections);
    EmittedShape(ll, descriptorSet, binding, 0, bound);
  }

  /** The `j`-th variable queued stands for the correction of `l` at some
      position `p`, later positions for later variables, and its binding is
      `binding + p - j`: the source binding plus the number of corrections
      of `l` struck out in front of it. */
  lemma AffectedOrigin(descriptorSet: Word, binding: Word, bound: Word, l: CorrectionBinding, r: CorrectionBinding)
    ensures var a := Affected(descriptorSet, binding, bound, l, r);
            var ps := StandingAt(Cancel(Standing(l.corrections), r.corrections));
            |ps| == |a| &&
            (forall j :: 0 <= j < |a| ==>
               j <= ps[j] < |l.corrections| && a[j].correctionType == l.corrections[ps[j]] &&
               a[j].binding == Wrap(binding + ps[j] - j)) &&
            (forall j, k :: 0 <= j < k < |a| ==> ps[j] < ps[k])
  {
    var ll := Cancel(Standing(l.corrections), r.corrections);
    var a := Affected(descriptorSet, binding, bound, l, r);
    EmittedShape(ll, descriptorSet, binding, 0, bound);
    EmittedBinding(ll, descriptorSet, binding, 0, bound);
    StandingAtShape(ll);
    StandingAtIncreasing(ll);
    CancelShape(Standing(l.corrections), r.corrections);
  }

  /** The example of the source's unit test: `l` = [SplitCombined,
      SplitDrefRegular, SplitDrefRegular, SplitCombined, SplitDrefComparison]
      against `r` = [SplitDrefRegular, SplitDrefComparison] queues three
      variables. */
  lemma PushExample()
    ensures Affected(0, 0, 0,
                     CorrectionBinding([SplitCombined, SplitDrefRegular, SplitDrefRegular, SplitCombined, SplitDrefComparison]),
                     CorrectionBinding([SplitDrefRegular, SplitDrefComparison])) ==
            [NewVariable(0, 0, 0, SplitCombined), NewVariable(0, 1, 1, SplitDrefRegular), NewVariable(0, 1, 2, SplitCombined)]
  {
    var l := [SplitCombined, SplitDrefRegular, SplitDrefRegular, SplitCombined, SplitDrefComparison];
    var r := [SplitDrefRegular, SplitDrefComparison];
    var once := [Some(SplitCombined), None, Some(SplitDrefRegular), Some(SplitCombined), Some(SplitDrefComparison)];
    var ll := [Some(SplitCombined), None, Some(SplitDrefRegular), Some(SplitCombined), None];
    assert r[..1] == [SplitDrefRegular] && [SplitDrefRegular][..0] == [];
    assert FirstStanding(Standing(l), SplitDrefRegular) == Some(1);
    assert Cancel(Standing(l), r[..1]) == once;
    assert FirstStanding(once, SplitDrefComparison) == Some(4);
    assert Cancel(Standing(l), r) == ll;
    assert Emitted([None], 0, 0, 1, 3) == [];
    assert Emitted([Some(SplitCombined), None], 0, 0, 1, 2) == [NewVariable(0, 1, 2, SplitCombined)];
    assert Emitted(ll[1..], 0, 0, 0, 1) == [NewVariable(0, 1, 1, SplitDrefRegular), NewVariable(0, 1, 2, SplitCombined)];
  }

  /** The same test with the two lists swapped queues nothing. */
  lemma PushExampleSwapped()
    ensures Affected(0, 0, 0,
                     CorrectionBinding([SplitDrefRegular, SplitDrefComparison]),
                     CorrectionBinding([SplitCombined, SplitDrefRegular, SplitDrefRegular, SplitCombined, SplitDrefComparison])) == []
  {
    var l := [SplitCombined, SplitDrefRegular, SplitDrefRegular, SplitCombined, SplitDrefComparison];
    var r := [SplitDrefRegular, SplitDrefComparison];
    AffectedEmpty(0, 0, 0, CorrectionBinding(r), CorrectionBinding(l));
    assert multiset(r) <= multiset(l);
  }
}
