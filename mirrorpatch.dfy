/** `mirrorpatch` (src/mirrorpatch.rs): make two modules that share their
    bindings (a vertex and a fragment shader) agree on the extra bindings
    their patches appended. For every descriptor set and binding, each
    correction one side has and the other lacks becomes a new variable on
    the other side, and each side that gains variables is rewritten by
    `patch_spv_decorations`. */
module Mirrorpatch {
  import opened Words
  import opened Options
  import opened Spv
  import opened Correction
  import opened AffectedDecorations
  import opened SetVisits
  import opened PatchDecorations

  // ---------------------------------------------------------------------
  // Iteration orders. A `HashMap` lists its keys in an order of its own;
  // the model takes that order as a parameter that lists every key once.

  ghost predicate SetOrder(setOrder: map<Word, CorrectionSet> -> seq<Word>)
  {
    forall m :: Lists(setOrder(m), m.Keys)
  }

  ghost predicate BindingOrder(bindingOrder: map<Word, CorrectionBinding> -> seq<Word>)
  {
    forall m :: Lists(bindingOrder(m), m.Keys)
  }

  /** The descriptor sets visited: the keys of the left map, then those of
      the right, with adjacent repeats removed as `Vec::dedup` does. A set
      both maps hold can still be visited twice (SetVisits.DedupRevisits),
      and each visit pushes its new variables again. */
  function Visits(setOrder: map<Word, CorrectionSet> -> seq<Word>, lm: map<Word, CorrectionSet>, rm: map<Word, CorrectionSet>): (r: seq<Word>)
    ensures forall i :: 0 <= i < |r| - 1 ==> r[i] != r[i + 1]
    ensures forall s :: s in r <==> s in setOrder(lm) || s in setOrder(rm)
  {
    DedupAdjacent(setOrder(lm) + setOrder(rm))
  }

  /** Every descriptor set either side has is visited, and no other. */
  lemma VisitsKeys(setOrder: map<Word, CorrectionSet> -> seq<Word>, lm: map<Word, CorrectionSet>, rm: map<Word, CorrectionSet>)
    requires SetOrder(setOrder)
    ensures forall s :: s in Visits(setOrder, lm, rm) <==> s in lm || s in rm
  {
    assert Lists(setOrder(lm), lm.Keys) && Lists(setOrder(rm), rm.Keys);
  }

  // ---------------------------------------------------------------------
  // What each side gains.

  /** The new variables the bindings `ks` of set `descriptorSet` give the
      side that lacks them, ids counted on from `bound`. */
  function BindingsAffected(descriptorSet: Word, from: map<Word, CorrectionBinding>, to: map<Word, CorrectionBinding>,
                            ks: seq<Word>, bound: Word): seq<NewVariable>
  {
    if ks == [] then []
    else
      var first := Affected(descriptorSet, ks[0], bound, BindingOrDefault(from, ks[0]), BindingOrDefault(to, ks[0]));
      first + BindingsAffected(descriptorSet, from, to, ks[1..], Wrap(bound + |first|))
  }

  /** The new variables the sets `visits` of `from` give the side `to`. */
  function SideAffected(from: map<Word, CorrectionSet>, to: map<Word, CorrectionSet>, visits: seq<Word>,
                        bindingOrder: map<Word, CorrectionBinding> -> seq<Word>, bound: Word): seq<NewVariable>
  {
    if visits == [] then []
    else
      var fromBindings := BindingsOrDefault(from, visits[0]);
      var first := BindingsAffected(visits[0], fromBindings, BindingsOrDefault(to, visits[0]), bindingOrder(fromBindings), bound);
      first + SideAffected(from, to, visits[1..], bindingOrder, Wrap(bound + |first|))
  }

  /** A set this side lacks reads as the default, empty set of bindings:
      there is nothing to walk, and the other side gains nothing from it. */
  lemma MissingSetAddsNothing(from: map<Word, CorrectionSet>, to: map<Word, CorrectionSet>, s: Word,
                              bindingOrder: map<Word, CorrectionBinding> -> seq<Word>, bound: Word)
    requires BindingOrder(bindingOrder) && s !in from
    ensures var fromBindings := BindingsOrDefault(from, s);
            BindingsAffected(s, fromBindings, BindingsOrDefault(to, s), bindingOrder(fromBindings), bound) == []
  {
    var none: map<Word, CorrectionBinding> := map[];
    var ks := bindingOrder(none);
    assert Lists(ks, none.Keys);
  }

  /** A binding the other side lacks reads as the default binding with no
      corrections: every correction of this side's binding is mirrored,
      counted with repetition. */
  lemma MissingBindingMirrorsAll(descriptorSet: Word, b: Word, bound: Word, l: CorrectionBinding,
                                 to: map<Word, CorrectionBinding>)
    requires b !in to
    ensures multiset(Kinds(Affected(descriptorSet, b, bound, l, BindingOrDefault(to, b)))) == multiset(l.corrections)
  {
    AffectedKinds(descriptorSet, b, bound, l, BindingOrDefault(to, b));
  }

  /** The new variables the right module gains from the left one. */
  function RightAffected(leftCorrections: Option<CorrectionMap>, rightCorrections: Option<CorrectionMap>,
                         setOrder: map<Word, CorrectionSet> -> seq<Word>, bindingOrder: map<Word, CorrectionBinding> -> seq<Word>,
                         rightBound: Word): seq<NewVariable>
  {
    var lm := SetsOrDefault(leftCorrections);
    var rm := SetsOrDefault(rightCorrections);
    SideAffected(lm, rm, Visits(setOrder, lm, rm), bindingOrder, rightBound)
  }

  /** The new variables the left module gains from the right one. */
  function LeftAffected(leftCorrections: Option<CorrectionMap>, rightCorrections: Option<CorrectionMap>,
                        setOrder: map<Word, CorrectionSet> -> seq<Word>, bindingOrder: map<Word, CorrectionBinding> -> seq<Word>,
                        leftBound: Word): seq<NewVariable>
  {
    var lm := SetsOrDefault(leftCorrections);
    var rm := SetsOrDefault(rightCorrections);
    SideAffected(rm, lm, Visits(setOrder, lm, rm), bindingOrder, leftBound)
  }

  // ---------------------------------------------------------------------
  // Ids: one side's new variables take the ids right after its bound, in
  // order, with `u32` wrap-around.

  /** The new variables of `a` take the ids `bound`, `bound + 1`, ... in
      order (modulo 2^32). */
  predicate NumberedFrom(a: seq<NewVariable>, bound: Word)
  {
    forall j :: 0 <= j < |a| ==> a[j].newResId == Wrap(bound + j)
  }

  lemma {:induction false} BindingsAffectedIds(descriptorSet: Word, from: map<Word, CorrectionBinding>, to: map<Word, CorrectionBinding>,
                                               ks: seq<Word>, bound: Word)
    ensures NumberedFrom(BindingsAffected(descriptorSet, from, to, ks, bound), bound)
    ensures forall j :: 0 <= j < |BindingsAffected(descriptorSet, from, to, ks, bound)| ==>
              BindingsAffected(descriptorSet, from, to, ks, bound)[j].descriptorSet == descriptorSet
  {
    if ks != [] {
      var k := ks[0];
      var first := Affected(descriptorSet, k, bound, BindingOrDefault(from, k), BindingOrDefault(to, k));
      var rest := BindingsAffected(descriptorSet, from, to, ks[1..], Wrap(bound + |first|));
      AffectedIds(descriptorSet, k, bound, BindingOrDefault(from, k), BindingOrDefault(to, k));
      BindingsAffectedIds(descriptorSet, from, to, ks[1..], Wrap(bound + |first|));
      var a := first + rest;
      forall j | 0 <= j < |a|
        ensures a[j].newResId == Wrap(bound + j) && a[j].descriptorSet == descriptorSet
      {
        if j < |first| {
          assert a[j] == first[j];
        } else {
          assert a[j] == rest[j - |first|];
          WrapAdd(bound + |first|, j - |first|);
        }
      }
    }
  }

  lemma {:induction false} SideAffectedIds(from: map<Word, CorrectionSet>, to: map<Word, CorrectionSet>, visits: seq<Word>,
                                           bindingOrder: map<Word, CorrectionBinding> -> seq<Word>, bound: Word)
    ensures NumberedFrom(SideAffected(from, to, visits, bindingOrder, bound), bound)
  {
    if visits != [] {
      var fromBindings := BindingsOrDefault(from, visits[0]);
      var first := BindingsAffected(visits[0], fromBindings, BindingsOrDefault(to, visits[0]), bindingOrder(fromBindings), bound);
      var rest := SideAffected(from, to, visits[1..], bindingOrder, Wrap(bound + |first|));
      BindingsAffectedIds(visits[0], fromBindings, BindingsOrDefault(to, visits[0]), bindingOrder(fromBindings), bound);
      SideAffectedIds(from, to, visits[1..], bindingOrder, Wrap(bound + |first|));
      var a := first + rest;
      forall j | 0 <= j < |a|
        ensures a[j].newResId == Wrap(bound + j)
      {
        if j < |first| {
          assert a[j] == first[j];
        } else {
          assert a[j] == rest[j - |first|];
          WrapAdd(bound + |first|, j - |first|);
        }
      }
    }
  }

  /** The right module's new variables take the ids `bound`, `bound + 1`,
      ... in order; when these do not run past the `u32` range they are
      exactly the next unused ids. */
  lemma RightAffectedIds(leftCorrections: Option<CorrectionMap>, rightCorrections: Option<CorrectionMap>,
                         setOrder: map<Word, CorrectionSet> -> seq<Word>, bindingOrder: map<Word, CorrectionBinding> -> seq<Word>,
                         rightBound: Word)
    ensures NumberedFrom(RightAffected(leftCorrections, rightCorrections, setOrder, bindingOrder, rightBound), rightBound)
    ensures rightBound + |RightAffected(leftCorrections, rightCorrections, setOrder, bindingOrder, rightBound)| <= 0x1_0000_0000 ==>
              forall j :: 0 <= j < |RightAffected(leftCorrections, rightCorrections, setOrder, bindingOrder, rightBound)| ==>
                RightAffected(leftCorrections, rightCorrections, setOrder, bindingOrder, rightBound)[j].newResId == rightBound + j
  {
    var lm := SetsOrDefault(leftCorrections);
    var rm := SetsOrDefault(rightCorrections);
    SideAffectedIds(lm, rm, Visits(setOrder, lm, rm), bindingOrder, rightBound);
    assert forall n: nat :: n < 0x1_0000_0000 ==> Wrap(n) == n;
  }

  /** The same for the left module. */
  lemma LeftAffectedIds(leftCorrections: Option<CorrectionMap>, rightCorrections: Option<CorrectionMap>,
                        setOrder: map<Word, CorrectionSet> -> seq<Word>, bindingOrder: map<Word, CorrectionBinding> -> seq<Word>,
                        leftBound: Word)
    ensures NumberedFrom(LeftAffected(leftCorrections, rightCorrections, setOrder, bindingOrder, leftBound), leftBound)
    ensures leftBound + |LeftAffected(leftCorrections, rightCorrections, setOrder, bindingOrder, leftBound)| <= 0x1_0000_0000 ==>
              forall j :: 0 <= j < |LeftAffected(leftCorrections, rightCorrections, setOrder, bindingOrder, leftBound)| ==>
                LeftAffected(leftCorrections, rightCorrections, setOrder, bindingOrder, leftBound)[j].newResId == leftBound + j
  {
    var lm := SetsOrDefault(leftCorrections);
    var rm := SetsOrDefault(rightCorrections);
    SideAffectedIds(rm, lm, Visits(setOrder, lm, rm), bindingOrder, leftBound);
    assert forall n: nat :: n < 0x1_0000_0000 ==> Wrap(n) == n;
  }

  // ---------------------------------------------------------------------
  // When a side gains nothing.

  /** Binding `k` of `to` has each correction of binding `k` of `from`,
      counted with repetition. */
  predicate BindingCovered(from: map<Word, CorrectionBinding>, to: map<Word, CorrectionBinding>, k: Word)
  {
    multiset(BindingOrDefault(from, k).corrections) <= multiset(BindingOrDefault(to, k).corrections)
  }

  /** Every binding of `from` is covered in `to`. */
  predicate Covered(from: map<Word, CorrectionBinding>, to: map<Word, CorrectionBinding>)
  {
    forall k :: k in from ==> BindingCovered(from, to, k)
  }

  /** Set `s` of `from` is covered by set `s` of `to`. */
  predicate SetCovered(from: map<Word, CorrectionSet>, to: map<Word, CorrectionSet>, s: Word)
  {
    Covered(BindingsOrDefault(from, s), BindingsOrDefault(to, s))
  }

  /** Every set of `from` is covered by the same set of `to`. */
  predicate Mirrored(from: map<Word, CorrectionSet>, to: map<Word, CorrectionSet>)
  {
    forall s :: s in from ==> SetCovered(from, to, s)
  }

  predicate KeysCovered(from: map<Word, CorrectionBinding>, to: map<Word, CorrectionBinding>, ks: seq<Word>)
  {
    forall k :: k in ks ==> BindingCovered(from, to, k)
  }

  /** Every set of `visits` is covered, walking its bindings in the order
      `bindingOrder` lists them. */
  predicate ListedCovered(from: map<Word, CorrectionSet>, to: map<Word, CorrectionSet>, visits: seq<Word>,
                          bindingOrder: map<Word, CorrectionBinding> -> seq<Word>)
  {
    forall s :: s in visits ==>
      KeysCovered(BindingsOrDefault(from, s), BindingsOrDefault(to, s), bindingOrder(BindingsOrDefault(from, s)))
  }

  lemma KeysCoveredCons(from: map<Word, CorrectionBinding>, to: map<Word, CorrectionBinding>, ks: seq<Word>)
    requires ks != []
    ensures KeysCovered(from, to, ks) <==> BindingCovered(from, to, ks[0]) && KeysCovered(from, to, ks[1..])
  {
    assert forall x :: x in ks <==> x == ks[0] || x in ks[1..];
  }

  lemma ListedCoveredCons(from: map<Word, CorrectionSet>, to: map<Word, CorrectionSet>, visits: seq<Word>,
                          bindingOrder: map<Word, CorrectionBinding> -> seq<Word>)
    requires visits != []
    ensures ListedCovered(from, to, visits, bindingOrder) <==>
            KeysCovered(BindingsOrDefault(from, visits[0]), BindingsOrDefault(to, visits[0]), bindingOrder(BindingsOrDefault(from, visits[0]))) &&
            ListedCovered(from, to, visits[1..], bindingOrder)
  {
    assert forall x :: x in visits <==> x == visits[0] || x in visits[1..];
  }

  /** One binding gives nothing exactly when it is covered. */
  lemma AffectedCovered(descriptorSet: Word, k: Word, bound: Word, from: map<Word, CorrectionBinding>, to: map<Word, CorrectionBinding>)
    ensures Affected(descriptorSet, k, bound, BindingOrDefault(from, k), BindingOrDefault(to, k)) == [] <==> BindingCovered(from, to, k)
  {
    AffectedEmpty(descriptorSet, k, bound, BindingOrDefault(from, k), BindingOrDefault(to, k));
  }

  lemma {:induction false} BindingsAffectedEmpty(descriptorSet: Word, from: map<Word, CorrectionBinding>, to: map<Word, CorrectionBinding>,
                                                 ks: seq<Word>, bound: Word)
    ensures BindingsAffected(descriptorSet, from, to, ks, bound) == [] <==> KeysCovered(from, to, ks)
  {
    if ks != [] {
      var first := Affected(descriptorSet, ks[0], bound, BindingOrDefault(from, ks[0]), BindingOrDefault(to, ks[0]));
      BindingsAffectedEmpty(descriptorSet, from, to, ks[1..], Wrap(bound + |first|));
      AffectedCovered(descriptorSet, ks[0], bound, from, to);
      KeysCoveredCons(from, to, ks);
    }
  }

  /** Walking the listed keys of a map covers the map. */
  lemma CoveredByKeys(from: map<Word, CorrectionBinding>, to: map<Word, CorrectionBinding>, ks: seq<Word>)
    requires Lists(ks, from.Keys)
    ensures Covered(from, to) <==> KeysCovered(from, to, ks)
  {
  }

  lemma {:induction false} SideAffectedEmpty(from: map<Word, CorrectionSet>, to: map<Word, CorrectionSet>, visits: seq<Word>,
                                             bindingOrder: map<Word, CorrectionBinding> -> seq<Word>, bound: Word)
    ensures SideAffected(from, to, visits, bindingOrder, bound) == [] <==> ListedCovered(from, to, visits, bindingOrder)
  {
    if visits != [] {
      var s := visits[0];
      var fromBindings := BindingsOrDefault(from, s);
      var ks := bindingOrder(fromBindings);
      var first := BindingsAffected(s, fromBindings, BindingsOrDefault(to, s), ks, bound);
      var rest := SideAffected(from, to, visits[1..], bindingOrder, Wrap(bound + |first|));
      assert SideAffected(from, to, visits, bindingOrder, bound) == first + rest;
      SideAffectedEmpty(from, to, visits[1..], bindingOrder, Wrap(bound + |first|));
      BindingsAffectedEmpty(s, fromBindings, BindingsOrDefault(to, s), ks, bound);
      ListedCoveredCons(from, to, visits, bindingOrder);
    }
  }

  /** When the visits include every set of `from` and the bindings are
      walked in an order that lists them all, covering what is walked is
      covering everything. */
  lemma ListedMirrored(from: map<Word, CorrectionSet>, to: map<Word, CorrectionSet>, visits: seq<Word>,
                       bindingOrder: map<Word, CorrectionBinding> -> seq<Word>)
    requires BindingOrder(bindingOrder)
    requires forall s :: s in from ==> s in visits
    ensures ListedCovered(from, to, visits, bindingOrder) <==> Mirrored(from, to)
  {
    forall s | s in visits
      ensures KeysCovered(BindingsOrDefault(from, s), BindingsOrDefault(to, s), bindingOrder(BindingsOrDefault(from, s))) <==>
              SetCovered(from, to, s)
    {
      var fromBindings := BindingsOrDefault(from, s);
      assert Lists(bindingOrder(fromBindings), fromBindings.Keys);
      CoveredByKeys(fromBindings, BindingsOrDefault(to, s), bindingOrder(fromBindings));
    }
    assert forall s :: s !in from ==> SetCovered(from, to, s);
  }

  /** The right module gains no variable exactly when every correction of
      the left one is already there; then `mirrorpatch` leaves it alone. */
  lemma RightAffectedEmpty(leftCorrections: Option<CorrectionMap>, rightCorrections: Option<CorrectionMap>,
                           setOrder: map<Word, CorrectionSet> -> seq<Word>, bindingOrder: map<Word, CorrectionBinding> -> seq<Word>,
                           rightBound: Word)
    requires SetOrder(setOrder) && BindingOrder(bindingOrder)
    ensures RightAffected(leftCorrections, rightCorrections, setOrder, bindingOrder, rightBound) == [] <==>
            Mirrored(SetsOrDefault(leftCorrections), SetsOrDefault(rightCorrections))
  {
    var lm := SetsOrDefault(leftCorrections);
    var rm := SetsOrDefault(rightCorrections);
    SideAffectedEmpty(lm, rm, Visits(setOrder, lm, rm), bindingOrder, rightBound);
    VisitsKeys(setOrder, lm, rm);
    ListedMirrored(lm, rm, Visits(setOrder, lm, rm), bindingOrder);
  }

  /** The same for the left module. */
  lemma LeftAffectedEmpty(leftCorrections: Option<CorrectionMap>, rightCorrections: Option<CorrectionMap>,
                          setOrder: map<Word, CorrectionSet> -> seq<Word>, bindingOrder: map<Word, CorrectionBinding> -> seq<Word>,
                          leftBound: Word)
    requires SetOrder(setOrder) && BindingOrder(bindingOrder)
    ensures LeftAffected(leftCorrections, rightCorrections, setOrder, bindingOrder, leftBound) == [] <==>
            Mirrored(SetsOrDefault(rightCorrections), SetsOrDefault(leftCorrections))
  {
    var lm := SetsOrDefault(leftCorrections);
    var rm := SetsOrDefault(rightCorrections);
    SideAffectedEmpty(rm, lm, Visits(setOrder, lm, rm), bindingOrder, leftBound);
    VisitsKeys(setOrder, lm, rm);
    ListedMirrored(rm, lm, Visits(setOrder, lm, rm), bindingOrder);
  }

  // ---------------------------------------------------------------------
  // The procedure.

  lemma AppendAssoc(a: seq<NewVariable>, b: seq<NewVariable>, c: seq<NewVariable>)
    ensures (a + b) + c == a + (b + c)
  {
  }

  /** The bindings from `ks[j]` on give what `ks[j]` gives, then what the
      rest give with the ids after those. */
  lemma BindingsAffectedCons(descriptorSet: Word, from: map<Word, CorrectionBinding>, to: map<Word, CorrectionBinding>,
                             ks: seq<Word>, j: nat, bound: Word)
    requires j < |ks| && ks[j] in from
    ensures var step := Affected(descriptorSet, ks[j], bound, from[ks[j]], BindingOrDefault(to, ks[j]));
            BindingsAffected(descriptorSet, from, to, ks[j..], bound) ==
            step + BindingsAffected(descriptorSet, from, to, ks[j + 1..], Wrap(bound + |step|))
  {
    assert ks[j..][1..] == ks[j + 1..];
  }

  /** After the bindings before `ks[j]` are pushed onto `newVariables`
      starting from `instructionBound`, pushing the rest gives the whole. */
  predicate PushedUpTo(newVariables: seq<NewVariable>, instructionBound: Word, descriptorSet: Word,
                       from: map<Word, CorrectionBinding>, to: map<Word, CorrectionBinding>, ks: seq<Word>,
                       j: nat, outVariables: seq<NewVariable>, outBound: Word)
  {
    j <= |ks| && |newVariables| <= |outVariables| &&
    outBound == Wrap(instructionBound + (|outVariables| - |newVariables|)) &&
    outVariables + BindingsAffected(descriptorSet, from, to, ks[j..], outBound) ==
    newVariables + BindingsAffected(descriptorSet, from, to, ks, instructionBound)
  }

  lemma PushedStep(newVariables: seq<NewVariable>, instructionBound: Word, descriptorSet: Word,
                   from: map<Word, CorrectionBinding>, to: map<Word, CorrectionBinding>, ks: seq<Word>,
                   j: nat, outVariables: seq<NewVariable>, outBound: Word,
                   nextVariables: seq<NewVariable>, nextBound: Word)
    requires PushedUpTo(newVariables, instructionBound, descriptorSet, from, to, ks, j, outVariables, outBound)
    requires j < |ks| && ks[j] in from
    requires var step := Affected(descriptorSet, ks[j], outBound, from[ks[j]], BindingOrDefault(to, ks[j]));
             nextVariables == outVariables + step && nextBound == Wrap(outBound + |step|)
    ensures PushedUpTo(newVariables, instructionBound, descriptorSet, from, to, ks, j + 1, nextVariables, nextBound)
  {
    var step := Affected(descriptorSet, ks[j], outBound, from[ks[j]], BindingOrDefault(to, ks[j]));
    var rest := BindingsAffected(descriptorSet, from, to, ks[j + 1..], nextBound);
    BindingsAffectedCons(descriptorSet, from, to, ks, j, outBound);
    WrapAdd(instructionBound + (|outVariables| - |newVariables|), |step|);
    AppendAssoc(outVariables, step, rest);
  }

  /** One inner loop of `mirrorpatch`: walk the bindings of one side's set
      and push what the other side lacks. */
  method PushBindings(newVariables: seq<NewVariable>, instructionBound: Word, descriptorSet: Word,
                      from: map<Word, CorrectionBinding>, to: map<Word, CorrectionBinding>, ks: seq<Word>)
    returns (outVariables: seq<NewVariable>, outBound: Word)
    requires Lists(ks, from.Keys)
    ensures outVariables == newVariables + BindingsAffected(descriptorSet, from, to, ks, instructionBound)
    ensures outBound == Wrap(instructionBound + |BindingsAffected(descriptorSet, from, to, ks, instructionBound)|)
  {
    outVariables, outBound := newVariables, instructionBound;
    assert ks[0..] == ks;
    for j := 0 to |ks|
      invariant PushedUpTo(newVariables, instructionBound, descriptorSet, from, to, ks, j, outVariables, outBound)
    {
      var bindingIdx := ks[j];
      assert bindingIdx in from;
      var l := from[bindingIdx];
      var r := BindingOrDefault(to, bindingIdx);
      ghost var before, beforeBound := outVariables, outBound;
      outVariables, outBound := PushAffectedDecorations(outVariables, outBound, descriptorSet, bindingIdx, l, r);
      PushedStep(newVariables, instructionBound, descriptorSet, from, to, ks, j, before, beforeBound, outVariables, outBound);
    }
    PushedDone(newVariables, instructionBound, descriptorSet, from, to, ks, outVariables, outBound);
  }

  lemma PushedDone(newVariables: seq<NewVariable>, instructionBound: Word, descriptorSet: Word,
                   from: map<Word, CorrectionBinding>, to: map<Word, CorrectionBinding>, ks: seq<Word>,
                   outVariables: seq<NewVariable>, outBound: Word)
    requires PushedUpTo(newVariables, instructionBound, descriptorSet, from, to, ks, |ks|, outVariables, outBound)
    ensures outVariables == newVariables + BindingsAffected(descriptorSet, from, to, ks, instructionBound)
    ensures outBound == Wrap(instructionBound + |BindingsAffected(descriptorSet, from, to, ks, instructionBound)|)
  {
    assert ks[|ks|..] == [];
    assert outVariables + [] == outVariables;
  }

  /** After the sets before `visits[i]` are walked, starting from
      `bound`, walking the rest gives the whole. */
  predicate SidePushedUpTo(from: map<Word, CorrectionSet>, to: map<Word, CorrectionSet>, visits: seq<Word>,
                           bindingOrder: map<Word, CorrectionBinding> -> seq<Word>, bound: Word,
                           i: nat, affected: seq<NewVariable>, instructionBound: Word)
  {
    i <= |visits| && instructionBound == Wrap(bound + |affected|) &&
    affected + SideAffected(from, to, visits[i..], bindingOrder, instructionBound) ==
    SideAffected(from, to, visits, bindingOrder, bound)
  }

  lemma SidePushedStart(from: map<Word, CorrectionSet>, to: map<Word, CorrectionSet>, visits: seq<Word>,
                        bindingOrder: map<Word, CorrectionBinding> -> seq<Word>, bound: Word)
    ensures SidePushedUpTo(from, to, visits, bindingOrder, bound, 0, [], bound)
  {
    assert visits[0..] == visits;
  }

  lemma SidePushedDone(from: map<Word, CorrectionSet>, to: map<Word, CorrectionSet>, visits: seq<Word>,
                       bindingOrder: map<Word, CorrectionBinding> -> seq<Word>, bound: Word,
                       affected: seq<NewVariable>, instructionBound: Word)
    requires SidePushedUpTo(from, to, visits, bindingOrder, bound, |visits|, affected, instructionBound)
    ensures affected == SideAffected(from, to, visits, bindingOrder, bound)
    ensures instructionBound == Wrap(bound + |affected|)
  {
    assert visits[|visits|..] == [];
    assert affected + [] == affected;
  }

  lemma SidePushedStep(from: map<Word, CorrectionSet>, to: map<Word, CorrectionSet>, visits: seq<Word>,
                       bindingOrder: map<Word, CorrectionBinding> -> seq<Word>, bound: Word,
                       i: nat, affected: seq<NewVariable>, instructionBound: Word,
                       nextAffected: seq<NewVariable>, nextBound: Word)
    requires SidePushedUpTo(from, to, visits, bindingOrder, bound, i, affected, instructionBound)
    requires i < |visits|
    requires nextAffected == affected + BindingsAffected(visits[i], BindingsOrDefault(from, visits[i]), BindingsOrDefault(to, visits[i]),
                                                         bindingOrder(BindingsOrDefault(from, visits[i])), instructionBound)
    requires nextBound == Wrap(instructionBound + |BindingsAffected(visits[i], BindingsOrDefault(from, visits[i]), BindingsOrDefault(to, visits[i]),
                                                                    bindingOrder(BindingsOrDefault(from, visits[i])), instructionBound)|)
    ensures SidePushedUpTo(from, to, visits, bindingOrder, bound, i + 1, nextAffected, nextBound)
  {
    var fromBindings := BindingsOrDefault(from, visits[i]);
    var step := BindingsAffected(visits[i], fromBindings, BindingsOrDefault(to, visits[i]),
                                 bindingOrder(fromBindings), instructionBound);
    var rest := SideAffected(from, to, visits[i + 1..], bindingOrder, nextBound);
    assert visits[i..][1..] == visits[i + 1..];
    WrapAdd(bound + |affected|, |step|);
    AppendAssoc(affected, step, rest);
  }

  /** What `mirrorpatch` needs: when either side has corrections, both
      modules have a header word for the id bound, and every module that
      gains variables can be patched. */
  predicate MirrorPatchable<D>(leftSpv: seq<Word>, leftCorrections: Option<CorrectionMap>,
                               rightSpv: seq<Word>, rightCorrections: Option<CorrectionMap>,
                               setOrder: map<Word, CorrectionSet> -> seq<Word>, bindingOrder: map<Word, CorrectionBinding> -> seq<Word>,
                               decorate: Decorate<D>, correctDecorate: CorrectDecorate<D>)
  {
    (leftCorrections.None? && rightCorrections.None?) ||
    (|leftSpv| > BOUND_IDX && |rightSpv| > BOUND_IDX &&
     var la := LeftAffected(leftCorrections, rightCorrections, setOrder, bindingOrder, leftSpv[BOUND_IDX]);
     var ra := RightAffected(leftCorrections, rightCorrections, setOrder, bindingOrder, rightSpv[BOUND_IDX]);
     (la != [] ==> Patchable(leftSpv, leftCorrections, la, decorate, correctDecorate)) &&
     (ra != [] ==> Patchable(rightSpv, rightCorrections, ra, decorate, correctDecorate)))
  }

  /** What becomes of one module: left alone when it gains nothing,
      otherwise rewritten by `patch_spv_decorations` with its id bound
      advanced past the new ids. */
  predicate Reflected<D>(inSpv: seq<Word>, corrections: Option<CorrectionMap>, affected: seq<NewVariable>,
                         decorate: Decorate<D>, correctDecorate: CorrectDecorate<D>,
                         out: Option<seq<Word>>, newCorrections: Option<CorrectionMap>)
    requires |inSpv| > BOUND_IDX && (affected != [] ==> Patchable(inSpv, corrections, affected, decorate, correctDecorate))
  {
    if affected == [] then out.None? && newCorrections == corrections
    else
      out.Some? && |out.value| >= HEADER_LENGTH &&
      out.value[BOUND_IDX] == Wrap(inSpv[BOUND_IDX] + |affected|) &&
      (forall k :: 0 <= k < HEADER_LENGTH && k != BOUND_IDX ==> out.value[k] == inSpv[k]) &&
      out.value[HEADER_LENGTH..] == PatchedBody(inSpv, corrections, affected, decorate, correctDecorate) &&
      newCorrections == PatchedCorrections(inSpv, corrections, affected, decorate, correctDecorate)
  }

  /** One round of the loop of `mirrorpatch` for one side: push what
      `to` lacks of the bindings `from` has in the set `visits[i]`. */
  method PushSet(from: map<Word, CorrectionSet>, to: map<Word, CorrectionSet>, visits: seq<Word>,
                 bindingOrder: map<Word, CorrectionBinding> -> seq<Word>, bound: Word, i: nat,
                 affected: seq<NewVariable>, instructionBound: Word)
    returns (nextAffected: seq<NewVariable>, nextBound: Word)
    requires BindingOrder(bindingOrder) && i < |visits|
    requires SidePushedUpTo(from, to, visits, bindingOrder, bound, i, affected, instructionBound)
    ensures SidePushedUpTo(from, to, visits, bindingOrder, bound, i + 1, nextAffected, nextBound)
  {
    var setIdx := visits[i];
    var fromBindings := BindingsOrDefault(from, setIdx);
    var toBindings := BindingsOrDefault(to, setIdx);
    assert Lists(bindingOrder(fromBindings), fromBindings.Keys);
    nextAffected, nextBound := PushBindings(affected, instructionBound, setIdx, fromBindings, toBindings, bindingOrder(fromBindings));
    SidePushedStep(from, to, visits, bindingOrder, bound, i, affected, instructionBound, nextAffected, nextBound);
  }

  /** The loop of `mirrorpatch`: for every visited set, push what the
      right side lacks of the left one's bindings, then the reverse. */
  method CollectAffected(leftCorrections: Option<CorrectionMap>, rightCorrections: Option<CorrectionMap>,
                         setOrder: map<Word, CorrectionSet> -> seq<Word>, bindingOrder: map<Word, CorrectionBinding> -> seq<Word>,
                         leftBound: Word, rightBound: Word)
    returns (leftAffectedDecorations: seq<NewVariable>, leftInstructionBound: Word,
             rightAffectedDecorations: seq<NewVariable>, rightInstructionBound: Word)
    requires BindingOrder(bindingOrder)
    ensures leftAffectedDecorations == LeftAffected(leftCorrections, rightCorrections, setOrder, bindingOrder, leftBound)
    ensures leftInstructionBound == Wrap(leftBound + |leftAffectedDecorations|)
    ensures rightAffectedDecorations == RightAffected(leftCorrections, rightCorrections, setOrder, bindingOrder, rightBound)
    ensures rightInstructionBound == Wrap(rightBound + |rightAffectedDecorations|)
  {
    var leftCorrectionsMap := SetsOrDefault(leftCorrections);
    var rightCorrectionsMap := SetsOrDefault(rightCorrections);
    var scanSetIdxs := Visits(setOrder, leftCorrectionsMap, rightCorrectionsMap);

    leftAffectedDecorations, leftInstructionBound := [], leftBound;
    rightAffectedDecorations, rightInstructionBound := [], rightBound;
    SidePushedStart(rightCorrectionsMap, leftCorrectionsMap, scanSetIdxs, bindingOrder, leftBound);
    SidePushedStart(leftCorrectionsMap, rightCorrectionsMap, scanSetIdxs, bindingOrder, rightBound);
    for i := 0 to |scanSetIdxs|
      invariant SidePushedUpTo(rightCorrectionsMap, leftCorrectionsMap, scanSetIdxs, bindingOrder, leftBound,
                               i, leftAffectedDecorations, leftInstructionBound)
      invariant SidePushedUpTo(leftCorrectionsMap, rightCorrectionsMap, scanSetIdxs, bindingOrder, rightBound,
                               i, rightAffectedDecorations, rightInstructionBound)
    {
      rightAffectedDecorations, rightInstructionBound :=
        PushSet(leftCorrectionsMap, rightCorrectionsMap, scanSetIdxs, bindingOrder, rightBound, i,
                rightAffectedDecorations, rightInstructionBound);
      leftAffectedDecorations, leftInstructionBound :=
        PushSet(rightCorrectionsMap, leftCorrectionsMap, scanSetIdxs, bindingOrder, leftBound, i,
                leftAffectedDecorations, leftInstructionBound);
    }
    SidePushedDone(rightCorrectionsMap, leftCorrectionsMap, scanSetIdxs, bindingOrder, leftBound,
                   leftAffectedDecorations, leftInstructionBound);
    SidePushedDone(leftCorrectionsMap, rightCorrectionsMap, scanSetIdxs, bindingOrder, rightBound,
                   rightAffectedDecorations, rightInstructionBound);
  }

  /** The tail of `mirrorpatch` for one side: a module that gains
      variables is patched with its new id bound, any other is left alone. */
  method PatchIfAffected<D>(inSpv: seq<Word>, corrections: Option<CorrectionMap>, instructionBound: Word,
                            affected: seq<NewVariable>, decorate: Decorate<D>, correctDecorate: CorrectDecorate<D>)
    returns (out: Option<seq<Word>>, newCorrections: Option<CorrectionMap>)
    requires |inSpv| > BOUND_IDX && (affected != [] ==> Patchable(inSpv, corrections, affected, decorate, correctDecorate))
    requires instructionBound == Wrap(inSpv[BOUND_IDX] + |affected|)
    ensures Reflected(inSpv, corrections, affected, decorate, correctDecorate, out, newCorrections)
  {
    if affected != [] {
      var patched;
      patched, newCorrections := PatchSpvDecorations(inSpv, corrections, instructionBound, affected,
                                                     decorate, correctDecorate);
      out := Some(patched);
    } else {
      out, newCorrections := None, corrections;
    }
  }

  /** `mirrorpatch`: with no corrections on either side nothing happens;
      otherwise each side gains the corrections the other has and it
      lacks, and is rewritten when it gains any. The error result of the
      source is never produced and is not modelled. */
  method Mirrorpatch<D>(leftSpv: seq<Word>, leftCorrections: Option<CorrectionMap>,
                        rightSpv: seq<Word>, rightCorrections: Option<CorrectionMap>,
                        setOrder: map<Word, CorrectionSet> -> seq<Word>, bindingOrder: map<Word, CorrectionBinding> -> seq<Word>,
                        decorate: Decorate<D>, correctDecorate: CorrectDecorate<D>)
    returns (left: Option<seq<Word>>, newLeftCorrections: Option<CorrectionMap>,
             right: Option<seq<Word>>, newRightCorrections: Option<CorrectionMap>)
    requires BindingOrder(bindingOrder)
    requires MirrorPatchable(leftSpv, leftCorrections, rightSpv, rightCorrections, setOrder, bindingOrder, decorate, correctDecorate)
    ensures leftCorrections.None? && rightCorrections.None? ==>
              left.None? && right.None? && newLeftCorrections == leftCorrections && newRightCorrections == rightCorrections
    ensures leftCorrections.Some? || rightCorrections.Some? ==>
              Reflected(leftSpv, leftCorrections,
                        LeftAffected(leftCorrections, rightCorrections, setOrder, bindingOrder, leftSpv[BOUND_IDX]),
                        decorate, correctDecorate, left, newLeftCorrections) &&
              Reflected(rightSpv, rightCorrections,
                        RightAffected(leftCorrections, rightCorrections, setOrder, bindingOrder, rightSpv[BOUND_IDX]),
                        decorate, correctDecorate, right, newRightCorrections)
  {
    if leftCorrections.None? && rightCorrections.None? {
      return None, leftCorrections, None, rightCorrections;
    }

    var leftAffectedDecorations, leftInstructionBound, rightAffectedDecorations, rightInstructionBound :=
      CollectAffected(leftCorrections, rightCorrections, setOrder, bindingOrder, leftSpv[BOUND_IDX], rightSpv[BOUND_IDX]);
    left, newLeftCorrections := PatchIfAffected(leftSpv, leftCorrections, leftInstructionBound, leftAffectedDecorations,
                                                decorate, correctDecorate);
    right, newRightCorrections := PatchIfAffected(rightSpv, rightCorrections, rightInstructionBound, rightAffectedDecorations,
                                                  decorate, correctDecorate);
  }
}
