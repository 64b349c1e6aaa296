/** `calculate_overlaps_detailed` (app.py:22-85): fills the result dictionary with one
    entry per metric, key by key, from the two annotated documents. */
module Analysis {
  import opened Strings
  import opened Annotation
  import opened Scoring

  /** The five keys every result holds. */
  const RESULT_KEYS: set<string> :=
    {"total_overlap", "lemma_overlap", "content_overlap", "lemma_content_overlap", "multiword_overlap"}

  /** The dictionary key of each metric, one of the five result keys. */
  function Key(m: Metric): (k: string)
    ensures k in RESULT_KEYS
  {
    match m
    case Total => "total_overlap"
    case Lemma => "lemma_overlap"
    case Content => "content_overlap"
    case LemmaContent => "lemma_content_overlap"
    case Multiword => "multiword_overlap"
  }

  /** No two metrics share a key, so no assignment overwrites an earlier one. */
  lemma KeyInjective(m: Metric, n: Metric)
    ensures Key(m) == Key(n) <==> m == n
  {
  }

  /** Looking up the dictionary that five successive assignments built, one per metric
      key, finds each metric's value and no other key. */
  lemma FiveEntries<T>(results: map<string, T>, e: Metric -> T)
    requires results == map[][Key(Total) := e(Total)][Key(Lemma) := e(Lemma)][Key(Content) := e(Content)]
                              [Key(LemmaContent) := e(LemmaContent)][Key(Multiword) := e(Multiword)]
    ensures results.Keys == RESULT_KEYS
    ensures forall m: Metric :: Key(m) in results && results[Key(m)] == e(m)
  {
    forall m: Metric
      ensures Key(m) in results && results[Key(m)] == e(m)
    {
      match m
      case Total =>
      case Lemma =>
      case Content =>
      case LemmaContent =>
      case Multiword =>
    }
  }

  /** The entry for metric `m`: the items of both documents scored against each other.
      Its shared list holds the items both documents yield, its one-sided lists the items
      only one of them yields, and it scores 1 exactly when both yield the same
      non-empty set of items. */
  function Entry(reference: Doc, target: Doc, m: Metric): (r: OverlapResult)
    ensures Elems(r.overlapping) == Items(reference, m) * Items(target, m)
    ensures Elems(r.refOnly) == Items(reference, m) - Items(target, m)
    ensures Elems(r.targetOnly) == Items(target, m) - Items(reference, m)
    ensures r.score == 1.0 <==> Items(reference, m) == Items(target, m) && Items(reference, m) != {}
  {
    ScoreOneIff(Items(reference, m), Items(target, m));
    Overlap(Items(reference, m), Items(target, m))
  }

  /** Builds the result dictionary as the source does: start from `{}` and assign the
      five entries in turn. It holds exactly the five keys, each metric's entry is the
      scorer applied to that metric's two item sets, and nothing else is in it. */
  method CalculateOverlapsDetailed(reference: Doc, target: Doc)
    returns (results: map<string, OverlapResult>)
    ensures results.Keys == RESULT_KEYS
    ensures forall m: Metric :: Key(m) in results && results[Key(m)] == Entry(reference, target, m)
  {
    results := map[];

    var refTokens := Items(reference, Total);
    var targetTokens := Items(target, Total);
    results := results[Key(Total) := Overlap(refTokens, targetTokens)];

    var refLemmas := Items(reference, Lemma);
    var targetLemmas := Items(target, Lemma);
    results := results[Key(Lemma) := Overlap(refLemmas, targetLemmas)];

    var refContent := Items(reference, Content);
    var targetContent := Items(target, Content);
    results := results[Key(Content) := Overlap(refContent, targetContent)];

    var refContentLemmas := Items(reference, LemmaContent);
    var targetContentLemmas := Items(target, LemmaContent);
    results := results[Key(LemmaContent) := Overlap(refContentLemmas, targetContentLemmas)];

    var refChunks := Items(reference, Multiword);
    var targetChunks := Items(target, Multiword);
    results := results[Key(Multiword) := Overlap(refChunks, targetChunks)];

    FiveEntries(results, m => Entry(reference, target, m));
  }

  /** Comparing in the other direction gives, for every metric, the same score and shared
      items with the two one-sided lists exchanged. */
  lemma AnalysisSymmetric(reference: Doc, target: Doc, m: Metric)
    ensures Entry(target, reference, m) == Swapped(Entry(reference, target, m))
  {
    Symmetric(Items(reference, m), Items(target, m));
  }

  /** A text compared with itself scores 1 on every metric for which it yields an item,
      with nothing reference-only or target-only; on a metric for which it yields none,
      the score is 0 and all lists are empty. */
  lemma AnalysisOfSameText(d: Doc, m: Metric)
    ensures Items(d, m) != {} ==>
      Entry(d, d, m).score == 1.0 && Entry(d, d, m).refOnly == [] && Entry(d, d, m).targetOnly == []
    ensures Items(d, m) == {} ==> Entry(d, d, m) == OverlapResult(0.0, [], [], [])
  {
    if Items(d, m) != {} {
      SelfOverlap(Items(d, m));
    } else {
      EmptyUnion(Items(d, m), Items(d, m));
    }
  }

  /** An empty reference text: on every metric the score is 0, nothing is shared or
      reference-only, and the target-only list is the target's items in order. */
  lemma EmptyReference(target: Doc, m: Metric)
    ensures Entry(Doc([], []), target, m) == OverlapResult(0.0, [], [], Sort(Items(target, m)))
  {
    EmptyDocumentItems(m);
    var t := Items(target, m);
    assert {} * t == {} && {} - t == {} && t - {} == t;
    ScoreZeroIff({}, t);
  }

  /** Texts that look alike to a metric up to letter case score 1 against each other on
      it whenever they yield an item. */
  lemma CaseVariantsMatch(d: Doc, e: Doc, m: Metric)
    requires DocsAgreeUpToCase(m, d, e)
    requires Items(d, m) != {}
    ensures Entry(d, e, m).score == 1.0
    ensures Entry(d, e, m).refOnly == [] && Entry(d, e, m).targetOnly == []
  {
    CaseInsensitiveItems(d, e, m);
    SelfOverlap(Items(d, m));
  }
}
