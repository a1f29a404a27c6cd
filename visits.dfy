/** The order in which `mirrorpatch` (src/mirrorpatch.rs) visits descriptor
    sets: the keys of the left correction map followed by the keys of the
    right one, with repeated keys dropped. The source drops them with
    `Vec::dedup`, which only drops a key equal to the one right before it;
    a set present on both sides is then visited twice unless its two
    occurrences happen to meet at the junction. */
module SetVisits {
  import opened Words

  predicate Distinct(ks: seq<Word>)
  {
    forall i, j :: 0 <= i < j < |ks| ==> ks[i] != ks[j]
  }

  /** `ks` lists every key of `keys` exactly once, as iterating the keys of
      a `HashMap` does (in an order the model leaves open). */
  predicate Lists(ks: seq<Word>, keys: set<Word>)
  {
    Distinct(ks) && (forall k :: k in ks ==> k in keys) && (forall k :: k in keys ==> k in ks)
  }

  /** `Vec::dedup` as the source calls it: drop every key equal to the one
      right before it. */
  function DedupAdjacent(ks: seq<Word>): (r: seq<Word>)
    ensures forall i :: 0 <= i < |r| - 1 ==> r[i] != r[i + 1]
    ensures forall k :: k in r <==> k in ks
    ensures |ks| > 0 ==> |r| > 0 && r[0] == ks[0]
  {
    if |ks| <= 1 then ks
    else if ks[0] == ks[1] then DedupAdjacent(ks[1..])
    else [ks[0]] + DedupAdjacent(ks[1..])
  }

  lemma FirstThree(a: seq<Word>)
    requires |a| > 2
    ensures a[0] in a && a[1] in a && a[2] in a
  {
  }

  /** A two-key map lists its keys in one of two orders. */
  lemma TwoKeys(a: seq<Word>)
    requires Lists(a, {0, 1})
    ensures a == [0, 1] || a == [1, 0]
  {
    assert 0 in a && 1 in a;
    var i0 :| 0 <= i0 < |a| && a[i0] == 0;
    var i1 :| 0 <= i1 < |a| && a[i1] == 1;
    assert |a| >= 2;
    if |a| > 2 {
      FirstThree(a);
      assert false;
    }
  }

  /** With sets 0 and 1 on both sides, whatever order either map lists its
      keys in, the deduplicated list visits some set twice. */
  lemma DedupRevisits(a: seq<Word>, b: seq<Word>)
    requires Lists(a, {0, 1}) && Lists(b, {0, 1})
    ensures !Distinct(DedupAdjacent(a + b))
  {
    TwoKeys(a);
    TwoKeys(b);
    assert a + b == [a[0], a[1], b[0], b[1]];
    DedupFour(a[0], a[1], b[0], b[1]);
  }

  /** Two orders of the keys 0 and 1, one after the other: `dedup` keeps a
      key twice. */
  lemma DedupFour(x: Word, y: Word, z: Word, w: Word)
    requires x <= 1 && y <= 1 && z <= 1 && w <= 1 && x != y && z != w
    ensures !Distinct(DedupAdjacent([x, y, z, w]))
  {
    var r := DedupAdjacent([x, y, z, w]);
    assert [x, y, z, w][1..] == [y, z, w];
    assert [y, z, w][1..] == [z, w];
    assert [z, w][1..] == [w];
    assert r == [x] + DedupAdjacent([y, z, w]);
    if y == z {
      assert DedupAdjacent([y, z, w]) == DedupAdjacent([z, w]) == [z] + [w];
      assert r[2] == w;
    } else {
      assert DedupAdjacent([y, z, w]) == [y] + DedupAdjacent([z, w]);
      assert r[2] == z;
    }
    assert r[0] == r[2];
  }


  /** The evidently intended deduplication: keep the first occurrence of
      every key, so that every set is visited once. */
  function UniqueInOrder(ks: seq<Word>): (r: seq<Word>)
    ensures Distinct(r)
    ensures forall k :: k in r <==> k in ks
  {
    if ks == [] then []
    else
      var p := UniqueInOrder(ks[..|ks| - 1]);
      var k := ks[|ks| - 1];
      assert forall x :: x in ks <==> x in ks[..|ks| - 1] || x == k;
      if k in p then p else p + [k]
  }
}
