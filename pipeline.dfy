/** The two halves together, as the analysis endpoint runs them: the scorer
    is given the tokens the preprocessor kept. */
module Pipeline {
  import opened Chars
  import opened Seqs
  import opened Lexicon
  import opened Tokenizer
  import opened Preprocessing
  import opened Sentiment

  /** Every word of the lists passes the token filter. */
  predicate AllKept(lex: Lexicons)
  {
    && (forall w :: w in lex.positive ==> Keep(w))
    && (forall w :: w in lex.negative ==> Keep(w))
    && (forall e, w :: w in lex.emotionWords(e) ==> Keep(w))
  }

  /** Filtering by a test that every word of the lists passes keeps every
      emotion's hit count, and so the table of nonzero counts. */
  lemma SameEmotionCounts(lex: Lexicons, words: seq<string>, q: string -> bool)
    requires forall e, w :: w in lex.emotionWords(e) ==> q(w)
    ensures EmotionCounts(lex, Filter(words, q)) == EmotionCounts(lex, words)
  {
    var ma, mb := EmotionCounts(lex, Filter(words, q)), EmotionCounts(lex, words);
    forall e
      ensures Get(ma, e) == Get(mb, e)
    {
      CountAfterFilter(words, q, Evokes(lex, e));
    }
  }

  /** Filtering by a test that every word of the lists passes drops only
      words the scorer ignores: the analysis of what is left is the analysis
      of all the words. */
  lemma FilterIsTransparent(lex: Lexicons, words: seq<string>, q: string -> bool)
    requires forall w :: w in lex.positive ==> q(w)
    requires forall w :: w in lex.negative ==> q(w)
    requires forall e, w :: w in lex.emotionWords(e) ==> q(w)
    ensures Analyze(lex, Filter(words, q)) == Analyze(lex, words)
  {
    CountAfterFilter(words, q, IsPositive(lex));
    CountAfterFilter(words, q, IsNegative(lex));
    FilterAfterFilter(words, q, IsPositive(lex));
    FilterAfterFilter(words, q, IsNegative(lex));
    SameEmotionCounts(lex, words, q);
  }

  /** When no word of the lists is a stopword or two characters or shorter,
      scoring what the preprocessor keeps of a text gives the result of
      scoring every word of the cleaned text. */
  lemma TextAnalysis(lex: Lexicons, text: string)
    requires AllKept(lex)
    ensures Analyze(lex, Preprocess(text).tokens) == Analyze(lex, Split(Preprocess(text).cleaned))
  {
    var words := Split(Clean(text));
    assert Preprocess(text).tokens == Filter(words, Keep);
    FilterIsTransparent(lex, words, Keep);
  }

  /** The two halves chained as the analysis endpoint chains them, with the
      program's own word lists: the confidence lies between 50 and 98, and
      the keyword lists are drawn from the text's tokens, in order, one per
      polarity hit. */
  function AnalyzeText(text: string): (a: Analysis)
    ensures 50.0 <= a.confidence <= 98.0
    ensures a.positiveScore == |a.positiveKeywords| && a.negativeScore == |a.negativeKeywords|
    ensures IsSubsequence(a.positiveKeywords, Preprocess(text).tokens)
    ensures IsSubsequence(a.negativeKeywords, Preprocess(text).tokens)
  {
    var tokens := Preprocess(text).tokens;
    ConfidenceRange(Builtin, tokens);
    Keywords(Builtin, tokens);
    Analyze(Builtin, tokens)
  }

  /** Empty or whitespace-only text goes through the whole pipeline without
      error: no tokens, neutral at exactly 50, no emotions, no keywords. */
  lemma BlankText(text: string)
    requires forall i :: 0 <= i < |text| ==> IsSpace(text[i])
    ensures AnalyzeText(text) == Analysis(Neutral, 50.0, 0, 0, map[], [], [])
  {
    assert Preprocess(text).tokens == [] by {
      BlankInput(text);
    }
    assert AnalyzeText(text) == Analyze(Builtin, []);
    NoTokens(Builtin);
  }
}
