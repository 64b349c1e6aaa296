# Lexical overlap engine, modelled in Dafny

The Text Overlap Analyzer compares a reference text against a target text and reports
five overlap metrics. The engine, `calculate_overlaps_detailed` in `app.py`, reads the two
annotated documents a linguistic annotator produced. For each metric it extracts a set of
lower-cased items from both documents:

- `total_overlap`: the surface text of every non-punctuation token.
- `lemma_overlap`: the lemma of every non-punctuation token.
- `content_overlap`: the surface text of every NOUN, VERB, ADJ or ADV token.
- `lemma_content_overlap`: the lemma of those same content tokens.
- `multiword_overlap`: the text of every noun chunk.

Each pair of item sets R and T is then scored. The score is |R ∩ T| / |R ∪ T|, or 0 when
the union is empty. The items are split into three sorted lists: shared, reference-only
and target-only.

The model has five modules:

- `Strings` (`strings.dfy`) restates the Python built-ins the engine uses. `str.lower()`
  becomes `Lower`, on ASCII letters. String `<=` becomes `Le`: lexicographic on code
  points, with a proper prefix first. `sorted(list(s))` on a set of strings becomes
  `Sort`, which takes the least element repeatedly. The module proves that `Le` is a
  total order and that `Sort` is the only strictly ascending list of a set's items.
- `Annotation` (`annotation.dfy`) holds the annotator's output as input data. A `Token`
  has `text`, `lemmaText` (spaCy's `lemma_`), `pos` and `isPunct`. A `Doc` has its tokens
  and its noun-chunk texts. The module also holds the five extraction rules, as one
  list-comprehension function per kind of source (`TokenList`, `ChunkList`) followed by
  `set(...)`.
- `Scoring` (`scoring.dfy`) is the one scorer that the source writes out five times.
- `Analysis` (`analysis.dfy`) is the engine itself. A method starts from an empty map and
  assigns the five entries in turn, as the source fills `results = {}`.
- `Scenarios` (`scenarios.dfy`) holds three worked examples with their expected results.

## Model

| member | source | states |
|---|---|---|
| `Strings.Lower` | app.py:30-31 | `.lower()` keeps the length, leaves no capital letter, leaves every non-capital unchanged and maps each capital to its small letter |
| `Strings.LowerIdempotent` | app.py:30-31 | lower-casing an item again changes nothing |
| `Strings.LowerEqIff` | app.py:30-31 | two strings give the same item exactly when they differ only in letter case (both directions, against an independent definition) |
| `Strings.Le` | app.py:35-37 | Python's `<=` on `str`: the empty string is below every string, otherwise the first code points decide and equal ones defer to the rest; `LeReflexive`, `LeAntisymmetric`, `LeTransitive` and `LeTotal` make it a total order |
| `Strings.Lt` | app.py:35-37 | Python's `<` on `str`: `<=` between distinct strings, the order `sorted` lists items in |
| `Strings.LeTotal` | app.py:35-37 | any two strings are ordered one way or the other, so `sorted` has one answer |
| `Strings.LeTransitive` | app.py:35-37 | the string order is transitive |
| `Strings.LeAntisymmetric` | app.py:35-37 | two strings ordered both ways are equal |
| `Strings.Elems` | app.py:30-31 | `set(list)`: the items that occur in the list; `Sort` and `SortUnique` relate it to the sorted lists |
| `Strings.Least` | app.py:35-37 | the first item of `sorted`: a member of the set that no member is below |
| `Strings.Sort` | app.py:35-37 | `sorted(list(s))` holds exactly the items of `s`, one per item, in strictly ascending order |
| `Strings.SortUnique` | app.py:35-37 | every strictly ascending list of the items of `s` is `Sort(s)`, so the result does not depend on the order `list(s)` gave |
| `Strings.AscendingIsDuplicateFree` | app.py:35-37 | a sorted output list never holds an item twice |
| `Strings.SortSingleton` | app.py:35-37 | sorting a one-item set gives that item alone |
| `Strings.SortPair` | app.py:35-37 | sorting two ordered items gives them in that order |
| `Annotation.Keep` | app.py:30-65 | the filter of each token comprehension: `not token.is_punct` for total and lemma (lines 30-31, 41-42), `token.pos_ in content_pos` for the two content metrics (lines 53-54, 64-65); `TokenListMembers` shows it decides which tokens yield items |
| `Annotation.Field` | app.py:30-65 | the token attribute each comprehension reads: `token.text` for total and content (lines 30-31, 53-54), `token.lemma_` for lemma and lemma content (lines 41-42, 64-65); `TokenListMembers` shows items are its lower-cased value |
| `Annotation.TokenList` | app.py:30-65 | the token comprehension of lines 30-31, 41-42, 53-54 and 64-65 yields only lower-case items (its recursive calls' contract is needed) |
| `Annotation.ChunkList` | app.py:75-76 | the chunk comprehension yields one item per noun chunk, each already in lower case |
| `Annotation.ItemList` | app.py:29-76 | the list each metric's comprehension builds: from the chunks for multiword, from the tokens otherwise (`ItemSources`) |
| `Annotation.Items` | app.py:29-76 | `set(...)` of a metric's list; every item of every metric is already in lower case |
| `Annotation.TokenListMembers` | app.py:30-31 | an item of a token metric is exactly the lower-cased field of some token the metric's filter keeps (both directions) |
| `Annotation.NonPunctuationItems` | app.py:30-31 | total and lemma items (also lines 41-42) are exactly the lower-cased texts or lemmas of the non-punctuation tokens |
| `Annotation.ContentWordItems` | app.py:52-54 | content items (also lines 64-65) are exactly the lower-cased texts or lemmas of the tokens tagged NOUN, VERB, ADJ or ADV |
| `Annotation.ChunkItems` | app.py:75-76 | multiword items are exactly the lower-cased noun-chunk texts |
| `Annotation.DroppedTokenIgnored` | app.py:30-31 | a token the filter drops adds nothing to the list, wherever it is inserted |
| `Annotation.PunctuationIgnored` | app.py:30-31 | inserting a punctuation token never changes the total or lemma items (also lines 41-42) |
| `Annotation.NonContentIgnored` | app.py:52-54 | inserting a token whose tag is not a content tag never changes the content items (also lines 64-65) |
| `Annotation.ItemSources` | app.py:75-76 | the multiword items depend on the chunks alone, and the token metrics' items on the tokens alone |
| `Annotation.AgreeUpToCase` | app.py:30-65 | two tokens look alike to a token metric: its filter keeps both or neither, and the one field it reads differs only in letter case where kept; nothing else about them matters |
| `Annotation.DocsAgreeUpToCase` | app.py:29-76 | two documents look alike to a metric: chunk by chunk up to case for multiword, token by token as `AgreeUpToCase` otherwise |
| `Annotation.TokenListCaseInsensitive` | app.py:30-65 | token lists that look alike to a token metric, token by token, give the same item list |
| `Annotation.CaseInsensitiveItems` | app.py:29-76 | documents that look alike to a metric up to letter case give the same items for it; for total, tags and lemmas may differ |
| `Annotation.EmptyDocumentItems` | app.py:29-76 | an empty document gives five empty item sets |
| `Scoring.SharedAtMostUnion` | app.py:34 | the shared count never exceeds the union count, so the ratio is at most 1 |
| `Scoring.Score` | app.py:34 | the score lies in [0, 1], and it is 0 when the union is empty (no division by zero) |
| `Scoring.Overlap` | app.py:32-37 | the entry's score is the Jaccard score; its three lists hold R ∩ T, R − T and T − R, each strictly ascending |
| `Scoring.Partition` | app.py:32-37 | the three lists are pairwise disjoint and together hold exactly R ∪ T |
| `Scoring.Reconstruction` | app.py:32-37 | shared plus reference-only items give R; shared plus target-only items give T |
| `Scoring.EmptyUnion` | app.py:34-37 | when R ∪ T is empty the entry is score 0 with three empty lists |
| `Scoring.NoDuplicates` | app.py:35-37 | none of the three lists holds an item twice |
| `Scoring.OverlapUnique` | app.py:32-37 | any score and three ascending lists with the right contents are the entry itself |
| `Scoring.Symmetric` | app.py:32-37 | swapping R and T keeps the score and the shared list and exchanges the two one-sided lists |
| `Scoring.ScoreOneIff` | app.py:34 | the score is 1 exactly when R = T and R is non-empty |
| `Scoring.ScoreZeroIff` | app.py:34 | the score is 0 exactly when R and T share no item |
| `Scoring.SelfOverlap` | app.py:32-37 | a non-empty set scored against itself gives 1, all items shared, nothing one-sided |
| `Analysis.Key` | app.py:33-78 | each metric's dictionary key is one of the five result keys |
| `Analysis.KeyInjective` | app.py:33-78 | the five dictionary keys are distinct, so no assignment overwrites another |
| `Analysis.FiveEntries` | app.py:27-83 | after the five successive assignments the dictionary holds exactly the five keys, each with its metric's value |
| `Analysis.Entry` | app.py:32-82 | one metric's entry: the shared list holds the items both documents yield, the one-sided lists the items only one of them yields, and the score is 1 exactly when both yield the same non-empty item set |
| `Analysis.CalculateOverlapsDetailed` | app.py:22-85 | the result holds exactly the keys `total_overlap`, `lemma_overlap`, `content_overlap`, `lemma_content_overlap`, `multiword_overlap`; each maps to the scorer applied to that metric's reference and target items |
| `Analysis.AnalysisSymmetric` | app.py:22-85 | comparing target against reference gives every metric the same score and shared items, with the one-sided lists exchanged |
| `Analysis.AnalysisOfSameText` | app.py:22-85 | a text compared with itself scores 1 on every metric where it yields an item, with nothing one-sided; where it yields none, it scores 0 with empty lists |
| `Analysis.EmptyReference` | app.py:22-85 | against an empty reference every metric scores 0, nothing is shared or reference-only, and the target-only list is the target's sorted items |
| `Analysis.CaseVariantsMatch` | app.py:22-85 | texts that look alike to a metric up to letter case score 1 against each other on it whenever they yield an item, with nothing one-sided |
| `Scenarios.IdenticalTexts` | app.py:29-38 | "The cat sat." against itself: total score 1, shared `["cat", "sat", "the"]`, the full stop not an item |
| `Scenarios.CaseVariantTags` | app.py:29-38 | "HELLO" tagged PROPN against "hello" tagged INTJ: total score 1, shared `["hello"]`, nothing one-sided, since the total metric ignores tags and lemmas |
| `Scenarios.DifferentSubjects` | app.py:40-49 | "Dogs run fast." against "Cats run fast.": lemma score 0.5, shared `["fast", "run"]`, reference-only `["dog"]`, target-only `["cat"]` |

## Left out

- The annotator is not modelled: spaCy is loaded once, with a model download as a fallback (app.py:11-20), and run on both texts (app.py:24-25). This is a foreign library plus process I/O. Its output (tokens with text, lemma, POS tag and punctuation flag, plus noun-chunk texts) is the model's input. Because of this, the raw texts are not the engine's input here, and the facts about tokenisation that the worked sentences rely on are assumptions. An example is that "The cat sat." yields the tokens `The`, `cat`, `sat` and `.`.
- Strings.Lower: does not model Unicode lower-casing. Only the ASCII letters A-Z are mapped; Python's `str.lower()` also maps other capitals (and can change length for a few characters).
- Scoring.Score: the score is an exact `real` rather than an IEEE double. Floating-point rounding is not modelled. The source returns the integer `0` on an empty union; the model uses `0.0`, which Python treats as equal to it.
- The result is a `map`, so the insertion order of the Python dictionary is not modelled. No reader of the result depends on that order: the display and the CSV export look keys up by name.
- The Streamlit user interface and session state are UI plumbing (app.py:9, 143-266). This includes the guard that only runs the engine when both texts are non-empty (app.py:187).
- The CSV export `create_csv_data` (app.py:87-141) depends on pandas and the clock, so it is left out. So is its truncation of long texts, and so is the three-decimal formatting of scores (app.py:118, 207-215).
- `calculate_overlaps_detailed` checks no input and raises no error of its own. It returns only the five-entry dictionary, with no raw texts and no timestamp. The model does the same.
