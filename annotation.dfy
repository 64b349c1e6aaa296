/** The annotated documents the overlap engine reads, and the five rules that turn one
    document into the set of items each overlap metric compares (app.py:29-31, 40-42,
    51-54, 63-65, 74-76). The linguistic annotator itself is not modelled: its output is
    the input here. */
module Annotation {
  import opened Strings

  /** One token as the annotator reports it: `token.text`, `token.lemma_`,
      `token.pos_` and `token.is_punct`. */
  datatype Token = Token(text: string, lemmaText: string, pos: string, isPunct: bool)

  /** An annotated document: its tokens in order, and the surface text of each of its
      noun chunks (`chunk.text` for `chunk in doc.noun_chunks`). */
  datatype Doc = Doc(tokens: seq<Token>, chunks: seq<string>)

  /** The part-of-speech tags of content words (`content_pos`, app.py:52). */
  const CONTENT_POS: set<string> := {"NOUN", "VERB", "ADJ", "ADV"}

  /** The five overlap metrics, in the order the engine computes them. */
  datatype Metric = Total | Lemma | Content | LemmaContent | Multiword

  /** The four metrics whose items come from tokens rather than from noun chunks. */
  predicate FromTokens(m: Metric) {
    m != Multiword
  }

  /** The filter of a token metric's comprehension: punctuation is dropped by the total
      and lemma metrics, everything but content words by the two content metrics. */
  predicate Keep(m: Metric, t: Token)
    requires FromTokens(m)
  {
    if m == Total || m == Lemma then !t.isPunct else t.pos in CONTENT_POS
  }

  /** The token field a token metric reads: the lemma for the two lemma metrics, the
      surface text otherwise. */
  function Field(m: Metric, t: Token): (f: string)
    requires FromTokens(m)
  {
    if m == Lemma || m == LemmaContent then t.lemmaText else t.text
  }

  /** The list comprehension `[field(t).lower() for t in ts if keep(t)]`. Every item it
      yields is already in lower case. */
  function TokenList(m: Metric, ts: seq<Token>): (r: seq<string>)
    requires FromTokens(m)
    ensures forall i :: 0 <= i < |r| ==> Lower(r[i]) == r[i]
  {
    if ts == [] then []
    else
      var head := if Keep(m, ts[0]) then [Lower(Field(m, ts[0]))] else [];
      LowerIdempotent(Field(m, ts[0]));
      var rest := TokenList(m, ts[1..]);
      assert forall i :: 0 <= i < |rest| ==> (head + rest)[|head| + i] == rest[i];
      head + rest
  }

  /** The list comprehension `[chunk.text.lower() for chunk in doc.noun_chunks]`: one
      item per chunk, each already in lower case. */
  function ChunkList(chunks: seq<string>): (r: seq<string>)
    ensures |r| == |chunks|
    ensures forall i :: 0 <= i < |r| ==> Lower(r[i]) == r[i]
  {
    var r := seq(|chunks|, i requires 0 <= i < |chunks| => Lower(chunks[i]));
    assert forall i :: 0 <= i < |r| ==> Lower(r[i]) == r[i] by {
      forall i | 0 <= i < |r|
        ensures Lower(r[i]) == r[i]
      {
        LowerIdempotent(chunks[i]);
      }
    }
    r
  }

  /** The list a metric's comprehension builds from one document. */
  function ItemList(d: Doc, m: Metric): (r: seq<string>) {
    if m == Multiword then ChunkList(d.chunks) else TokenList(m, d.tokens)
  }

  /** The item set of one metric for one document: `set(...)` of its list. Every item is
      already in lower case: lower-casing it again changes nothing, so the five item
      sets hold normalised strings only. */
  function Items(d: Doc, m: Metric): (r: set<string>)
    ensures forall x :: x in r ==> Lower(x) == x
  {
    Elems(ItemList(d, m))
  }

  /** An item of a token metric is exactly the lower-cased field of some token the
      metric's filter keeps. */
  lemma {:induction false} TokenListMembers(m: Metric, ts: seq<Token>, x: string)
    requires FromTokens(m)
    ensures x in TokenList(m, ts) <==>
            exists i :: 0 <= i < |ts| && Keep(m, ts[i]) && x == Lower(Field(m, ts[i]))
  {
    if ts != [] {
      TokenListMembers(m, ts[1..], x);
      var head := if Keep(m, ts[0]) then [Lower(Field(m, ts[0]))] else [];
      assert TokenList(m, ts) == head + TokenList(m, ts[1..]);
      if x in TokenList(m, ts[1..]) {
        var i :| 0 <= i < |ts[1..]| && Keep(m, ts[1..][i]) && x == Lower(Field(m, ts[1..][i]));
        assert ts[i + 1] == ts[1..][i];
      }
      if exists i :: 0 <= i < |ts| && Keep(m, ts[i]) && x == Lower(Field(m, ts[i])) {
        var i :| 0 <= i < |ts| && Keep(m, ts[i]) && x == Lower(Field(m, ts[i]));
        if i > 0 {
          assert ts[1..][i - 1] == ts[i];
        }
      }
    }
  }

  /** The total and lemma metrics: an item is the lower-cased text (resp. lemma) of a
      token that is not punctuation, and every such token yields one. */
  lemma NonPunctuationItems(d: Doc, m: Metric, x: string)
    requires m == Total || m == Lemma
    ensures x in Items(d, m) <==>
            exists i :: 0 <= i < |d.tokens| && !d.tokens[i].isPunct &&
                        x == Lower(if m == Total then d.tokens[i].text else d.tokens[i].lemmaText)
  {
    TokenListMembers(m, d.tokens, x);
  }

  /** The two content metrics: an item is the lower-cased text (resp. lemma) of a token
      whose part of speech is NOUN, VERB, ADJ or ADV, and every such token yields one. */
  lemma ContentWordItems(d: Doc, m: Metric, x: string)
    requires m == Content || m == LemmaContent
    ensures x in Items(d, m) <==>
            exists i :: 0 <= i < |d.tokens| && d.tokens[i].pos in CONTENT_POS &&
                        x == Lower(if m == Content then d.tokens[i].text else d.tokens[i].lemmaText)
  {
    TokenListMembers(m, d.tokens, x);
  }

  /** The multiword metric: an item is the lower-cased text of a noun chunk. */
  lemma ChunkItems(d: Doc, x: string)
    ensures x in Items(d, Multiword) <==>
            exists i :: 0 <= i < |d.chunks| && x == Lower(d.chunks[i])
  {
    if x in Items(d, Multiword) {
      var i :| 0 <= i < |ChunkList(d.chunks)| && ChunkList(d.chunks)[i] == x;
      assert x == Lower(d.chunks[i]);
    }
  }

  /** A token the filter drops contributes nothing, wherever it stands: the list, and so
      the item set, is the one built without it. */
  lemma {:induction false} DroppedTokenIgnored(m: Metric, ts: seq<Token>, k: nat, t: Token)
    requires FromTokens(m) && k <= |ts| && !Keep(m, t)
    ensures TokenList(m, ts[..k] + [t] + ts[k..]) == TokenList(m, ts)
    decreases k
  {
    if k == 0 {
      assert ts[..0] + [t] + ts[0..] == [t] + ts;
      assert ([t] + ts)[1..] == ts;
    } else {
      var with := ts[..k] + [t] + ts[k..];
      assert with[0] == ts[0];
      assert with[1..] == ts[1..][..k - 1] + [t] + ts[1..][k - 1..];
      DroppedTokenIgnored(m, ts[1..], k - 1, t);
    }
  }

  /** The total and lemma metrics never draw on a punctuation token: inserting one into a
      document leaves their item sets unchanged. */
  lemma PunctuationIgnored(d: Doc, m: Metric, k: nat, t: Token)
    requires m == Total || m == Lemma
    requires k <= |d.tokens| && t.isPunct
    ensures Items(Doc(d.tokens[..k] + [t] + d.tokens[k..], d.chunks), m) == Items(d, m)
  {
    DroppedTokenIgnored(m, d.tokens, k, t);
  }

  /** The content metrics never draw on a token outside NOUN, VERB, ADJ and ADV. */
  lemma NonContentIgnored(d: Doc, m: Metric, k: nat, t: Token)
    requires m == Content || m == LemmaContent
    requires k <= |d.tokens| && t.pos !in CONTENT_POS
    ensures Items(Doc(d.tokens[..k] + [t] + d.tokens[k..], d.chunks), m) == Items(d, m)
  {
    DroppedTokenIgnored(m, d.tokens, k, t);
  }

  /** The multiword metric reads only the chunks, and the token metrics only the tokens. */
  lemma ItemSources(d: Doc, e: Doc, m: Metric)
    requires if m == Multiword then d.chunks == e.chunks else d.tokens == e.tokens
    ensures Items(d, m) == Items(e, m)
  {
  }

  /** Two tokens look alike to token metric `m` up to letter case: its filter treats
      them the same way, and where it keeps them, the one field it reads differs only in
      letter case. Whatever else `m` does not read may differ. */
  predicate AgreeUpToCase(m: Metric, t: Token, u: Token)
    requires FromTokens(m)
  {
    Keep(m, t) == Keep(m, u) && (Keep(m, t) ==> EqualIgnoringCase(Field(m, t), Field(m, u)))
  }

  /** Two documents look alike to metric `m` up to letter case: chunk by chunk for the
      multiword metric, token by token, as `AgreeUpToCase`, for a token metric. */
  predicate DocsAgreeUpToCase(m: Metric, d: Doc, e: Doc) {
    if m == Multiword then
      |d.chunks| == |e.chunks| &&
      forall i :: 0 <= i < |d.chunks| ==> EqualIgnoringCase(d.chunks[i], e.chunks[i])
    else
      |d.tokens| == |e.tokens| &&
      forall i :: 0 <= i < |d.tokens| ==> AgreeUpToCase(m, d.tokens[i], e.tokens[i])
  }

  lemma {:induction false} TokenListCaseInsensitive(m: Metric, ts: seq<Token>, us: seq<Token>)
    requires FromTokens(m) && |ts| == |us|
    requires forall i :: 0 <= i < |ts| ==> AgreeUpToCase(m, ts[i], us[i])
    ensures TokenList(m, ts) == TokenList(m, us)
  {
    if ts != [] {
      LowerEqIff(Field(m, ts[0]), Field(m, us[0]));
      forall i | 0 <= i < |ts| - 1
        ensures AgreeUpToCase(m, ts[1..][i], us[1..][i])
      {
        assert ts[1..][i] == ts[i + 1] && us[1..][i] == us[i + 1];
      }
      TokenListCaseInsensitive(m, ts[1..], us[1..]);
    }
  }

  /** Letter case never matters: two documents that look alike to a metric up to case
      have the same item set for it ("HELLO world" and "hello WORLD"). */
  lemma CaseInsensitiveItems(d: Doc, e: Doc, m: Metric)
    requires DocsAgreeUpToCase(m, d, e)
    ensures Items(d, m) == Items(e, m)
  {
    if m == Multiword {
      forall i | 0 <= i < |d.chunks|
        ensures ChunkList(d.chunks)[i] == ChunkList(e.chunks)[i]
      {
        LowerEqIff(d.chunks[i], e.chunks[i]);
      }
      assert ChunkList(d.chunks) == ChunkList(e.chunks);
    } else {
      TokenListCaseInsensitive(m, d.tokens, e.tokens);
    }
  }

  /** An empty text (no tokens, no chunks) yields five empty item sets. */
  lemma EmptyDocumentItems(m: Metric)
    ensures Items(Doc([], []), m) == {}
  {
  }
}
