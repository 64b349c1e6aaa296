/** The per-metric scorer the engine repeats five times (app.py:32-37, 43-48, 55-60,
    66-71, 77-82): a Jaccard score `|R & T| / |R | T|` (0 when the union is empty) and
    the three sorted lists of shared, reference-only and target-only items. */
module Scoring {
  import opened Strings

  /** One entry of the result dictionary: `score`, `overlapping`, `ref_only`,
      `target_only`. */
  datatype OverlapResult = OverlapResult(
    score: real,
    overlapping: seq<string>,
    refOnly: seq<string>,
    targetOnly: seq<string>)

  /** The score expression of app.py:34: the share of the union that both item sets
      hold, and 0 instead of a division by zero when the union is empty. */
  function Score(r: set<string>, t: set<string>): (x: real)
    ensures 0.0 <= x <= 1.0
    ensures r + t == {} ==> x == 0.0
  {
    var union := r + t;
    if union == {} then 0.0
    else
      SharedAtMostUnion(r, t);
      (|r * t| as real) / (|union| as real)
  }

  lemma SharedAtMostUnion(r: set<string>, t: set<string>)
    requires r + t != {}
    ensures (|r * t| as real) / (|r + t| as real) <= 1.0
  {
    assert |r - t| + |t - r| + |r * t| == |r + t|;
    var n, d := |r * t| as real, |r + t| as real;
    assert n / d * d == n;
  }

  /** The dictionary entry built from the reference items `r` and the target items `t`. */
  function Overlap(r: set<string>, t: set<string>): (o: OverlapResult)
    ensures o.score == Score(r, t)
    ensures Elems(o.overlapping) == r * t
    ensures Elems(o.refOnly) == r - t
    ensures Elems(o.targetOnly) == t - r
    ensures StrictlyAscending(o.overlapping)
    ensures StrictlyAscending(o.refOnly)
    ensures StrictlyAscending(o.targetOnly)
  {
    OverlapResult(Score(r, t), Sort(r * t), Sort(r - t), Sort(t - r))
  }

  /** The three lists split the union: no item is in two of them, and together they
      hold exactly the items of either document. */
  lemma Partition(r: set<string>, t: set<string>)
    ensures var o := Overlap(r, t);
      && Elems(o.overlapping) !! Elems(o.refOnly)
      && Elems(o.overlapping) !! Elems(o.targetOnly)
      && Elems(o.refOnly) !! Elems(o.targetOnly)
      && Elems(o.overlapping) + Elems(o.refOnly) + Elems(o.targetOnly) == r + t
  {
    var o := Overlap(r, t);
    var shared, refOnly, targetOnly := Elems(o.overlapping), Elems(o.refOnly), Elems(o.targetOnly);
    assert shared == r * t && refOnly == r - t && targetOnly == t - r;
    assert shared !! refOnly by {
      forall x | x in shared ensures x !in refOnly { }
    }
    assert shared !! targetOnly by {
      forall x | x in shared ensures x !in targetOnly { }
    }
    assert refOnly !! targetOnly by {
      forall x | x in refOnly ensures x !in targetOnly { }
    }
    assert shared + refOnly + targetOnly == r + t;
  }

  /** Shared plus reference-only items give back the reference set, and shared plus
      target-only items the target set. */
  lemma Reconstruction(r: set<string>, t: set<string>)
    ensures var o := Overlap(r, t);
      && Elems(o.overlapping) + Elems(o.refOnly) == r
      && Elems(o.overlapping) + Elems(o.targetOnly) == t
  {
  }

  /** With nothing on either side there is no division error: the score is 0 and all
      three lists are empty. */
  lemma EmptyUnion(r: set<string>, t: set<string>)
    requires r + t == {}
    ensures Overlap(r, t) == OverlapResult(0.0, [], [], [])
  {
  }

  /** Each output list, being strictly ascending, holds no item twice. */
  lemma NoDuplicates(r: set<string>, t: set<string>)
    ensures var o := Overlap(r, t);
      forall q :: q in [o.overlapping, o.refOnly, o.targetOnly] ==>
        forall i, j :: 0 <= i < |q| && 0 <= j < |q| && i != j ==> q[i] != q[j]
  {
    var o := Overlap(r, t);
    AscendingIsDuplicateFree(o.overlapping);
    AscendingIsDuplicateFree(o.refOnly);
    AscendingIsDuplicateFree(o.targetOnly);
  }

  /** The entry is pinned down by what it means: any score and three lists with those
      contents in ascending order are the entry itself, whatever order Python's
      `list(set)` happened to yield before `sorted`. */
  lemma OverlapUnique(r: set<string>, t: set<string>, o: OverlapResult)
    requires o.score == Score(r, t)
    requires StrictlyAscending(o.overlapping) && Elems(o.overlapping) == r * t
    requires StrictlyAscending(o.refOnly) && Elems(o.refOnly) == r - t
    requires StrictlyAscending(o.targetOnly) && Elems(o.targetOnly) == t - r
    ensures o == Overlap(r, t)
  {
    SortUnique(r * t, o.overlapping);
    SortUnique(r - t, o.refOnly);
    SortUnique(t - r, o.targetOnly);
  }

  /** The entry with the two sides exchanged. */
  function Swapped(o: OverlapResult): (r: OverlapResult) {
    o.(refOnly := o.targetOnly, targetOnly := o.refOnly)
  }

  /** Swapping reference and target keeps the score and the shared items and exchanges
      the reference-only and target-only lists. */
  lemma Symmetric(r: set<string>, t: set<string>)
    ensures Overlap(t, r) == Swapped(Overlap(r, t))
  {
    assert t * r == r * t && t + r == r + t;
  }

  /** A set that is no larger than a superset of it is that superset. */
  lemma SubsetOfSameSize(a: set<string>, b: set<string>)
    requires a <= b && |a| == |b|
    ensures a == b
  {
    assert |b - a| + |a - b| + |b * a| == |b + a|;
    assert b * a == a && b + a == b && a - b == {};
  }

  /** The score is 1 exactly when both documents yield the same, non-empty item set. */
  lemma ScoreOneIff(r: set<string>, t: set<string>)
    ensures Score(r, t) == 1.0 <==> r == t && r != {}
  {
    if Score(r, t) == 1.0 {
      assert r + t != {};
      var n, d := |r * t| as real, |r + t| as real;
      assert n / d == 1.0;
      assert n == d;
      SubsetOfSameSize(r * t, r + t);
    }
    if r == t && r != {} {
      assert r * t == r + t;
    }
  }

  /** The score is 0 exactly when the documents share no item. */
  lemma ScoreZeroIff(r: set<string>, t: set<string>)
    ensures Score(r, t) == 0.0 <==> r * t == {}
  {
    if r + t != {} && Score(r, t) == 0.0 {
      var n, d := |r * t| as real, |r + t| as real;
      assert n / d == 0.0;
      assert n == 0.0;
    }
  }

  /** A document compared with itself, whenever it yields at least one item: score 1,
      every item shared, nothing on either side alone. */
  lemma SelfOverlap(r: set<string>)
    requires r != {}
    ensures Overlap(r, r) == OverlapResult(1.0, Sort(r), [], [])
  {
    ScoreOneIff(r, r);
    assert r * r == r && r - r == {};
  }
}
