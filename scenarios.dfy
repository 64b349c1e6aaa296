/** Worked examples of the engine on small annotated sentences, with the annotation an
    English tagger gives them. */
module Scenarios {
  import opened Strings
  import opened Annotation
  import opened Scoring
  import opened Analysis

  /** "The cat sat." */
  function CatSat(): Doc {
    Doc([Token("The", "the", "DET", false), Token("cat", "cat", "NOUN", false),
         Token("sat", "sit", "VERB", false), Token(".", ".", "PUNCT", true)],
        ["The cat"])
  }

  /** The same text on both sides: every item is shared, in code-point order, and the
      full stop is not an item. */
  lemma IdenticalTexts()
    ensures Entry(CatSat(), CatSat(), Total) == OverlapResult(1.0, ["cat", "sat", "the"], [], [])
  {
    var items := Items(CatSat(), Total);
    assert Lower("The") == "the";
    assert Lower("cat") == "cat";
    assert Lower("sat") == "sat";
    assert items == {"the", "cat", "sat"};
    assert StrictlyAscending(["cat", "sat", "the"]);
    SortUnique(items, ["cat", "sat", "the"]);
    SelfOverlap(items);
  }

  /** "Dogs run fast." */
  function DogsRun(): Doc {
    Doc([Token("Dogs", "dog", "NOUN", false), Token("run", "run", "VERB", false),
         Token("fast", "fast", "ADV", false), Token(".", ".", "PUNCT", true)],
        ["Dogs"])
  }

  /** "Cats run fast." */
  function CatsRun(): Doc {
    Doc([Token("Cats", "cat", "NOUN", false), Token("run", "run", "VERB", false),
         Token("fast", "fast", "ADV", false), Token(".", ".", "PUNCT", true)],
        ["Cats"])
  }

  lemma DifferentSubjectsItems()
    ensures Items(DogsRun(), Lemma) == {"dog", "run", "fast"}
    ensures Items(CatsRun(), Lemma) == {"cat", "run", "fast"}
  {
    assert Lower("dog") == "dog" && Lower("cat") == "cat";
    assert Lower("run") == "run" && Lower("fast") == "fast";
  }

  lemma DifferentSubjectsScore()
    ensures Score({"dog", "run", "fast"}, {"cat", "run", "fast"}) == 0.5
  {
    var r: set<string>, t: set<string> := {"dog", "run", "fast"}, {"cat", "run", "fast"};
    assert r * t == {"run", "fast"};
    assert r + t == {"dog", "cat", "run", "fast"};
  }

  lemma DifferentSubjectsLists()
    ensures Sort({"dog", "run", "fast"} * {"cat", "run", "fast"}) == ["fast", "run"]
    ensures Sort({"dog", "run", "fast"} - {"cat", "run", "fast"}) == ["dog"]
    ensures Sort({"cat", "run", "fast"} - {"dog", "run", "fast"}) == ["cat"]
  {
    var r: set<string>, t: set<string> := {"dog", "run", "fast"}, {"cat", "run", "fast"};
    assert r * t == {"run", "fast"};
    assert r - t == {"dog"};
    assert t - r == {"cat"};
    assert Lt("fast", "run");
    SortPair("fast", "run");
    SortSingleton("dog");
    SortSingleton("cat");
  }

  /** Lemmas shared by the two sentences are "fast" and "run"; each side keeps its own
      noun's lemma; two of four lemmas are shared. */
  lemma DifferentSubjects()
    ensures Entry(DogsRun(), CatsRun(), Lemma) == OverlapResult(0.5, ["fast", "run"], ["dog"], ["cat"])
  {
    DifferentSubjectsItems();
    DifferentSubjectsScore();
    DifferentSubjectsLists();
  }

  /** "HELLO" tagged as a proper noun. */
  function ShoutedHello(): Doc {
    Doc([Token("HELLO", "HELLO", "PROPN", false)], [])
  }

  /** "hello" tagged as an interjection. */
  function QuietHello(): Doc {
    Doc([Token("hello", "hello", "INTJ", false)], [])
  }

  /** The total metric reads only the text and the punctuation flag: a different tag and
      a different lemma do not matter, and the two texts match fully. */
  lemma CaseVariantTags()
    ensures Entry(ShoutedHello(), QuietHello(), Total) == OverlapResult(1.0, ["hello"], [], [])
  {
    var d, e := ShoutedHello(), QuietHello();
    assert Lower("HELLO") == "hello" && Lower("hello") == "hello";
    assert Items(d, Total) == {"hello"};
    assert EqualIgnoringCase("HELLO", "hello");
    assert DocsAgreeUpToCase(Total, d, e);
    CaseVariantsMatch(d, e, Total);
    CaseInsensitiveItems(d, e, Total);
    SortSingleton("hello");
  }
}
