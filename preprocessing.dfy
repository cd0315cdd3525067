/** The preprocessor: it lower-cases the text, turns every character that is
    neither a word character nor whitespace into a space, collapses runs of
    whitespace into one space, trims both ends, splits into words and keeps
    the words that are longer than two characters and are not stopwords. */
module Preprocessing {
  import opened Chars
  import opened Seqs
  import opened Lexicon
  import opened Tokenizer

  /** What the preprocessor hands back: the untouched input, the cleaned text,
      the kept tokens, and how many words there were before and after
      filtering. */
  datatype Preprocessed = Preprocessed(
    original: string,
    cleaned: string,
    tokens: seq<string>,
    wordCount: nat,
    tokenCount: nat)

  /** The test a word must pass to become a token: it is not a stopword and
      is longer than two characters. */
  predicate Keep(w: string)
  {
    w !in Stopwords && |w| > 2
  }

  /** Lower-casing, removing special characters and removing extra
      whitespace: the cleaned text is lower-case words separated by single
      spaces; its words are those of the lower-cased text with special
      characters replaced, in order, and joining them gives it back. */
  function Clean(text: string): (c: string)
    ensures IsCleaned(c)
    ensures Split(c) == Split(ReplaceSpecials(LowerCase(text)))
    ensures c == Join(Split(ReplaceSpecials(LowerCase(text))))
    ensures AllLowerWords(Split(c))
  {
    var replaced := ReplaceSpecials(LowerCase(text));
    NormalizedChars(text);
    StripCollapseCleans(replaced);
    var c := Strip(Collapse(replaced));
    SplitStrip(Collapse(replaced));
    SplitCollapse(replaced);
    SplitJoin(c);
    CleanedWords(c);
    c
  }

  /** Removing stopwords and short tokens: the words that pass the test, in
      their order; exactly the words that pass it occur, as often as they
      occur among the words. */
  function KeptTokens(words: seq<string>): (tokens: seq<string>)
    ensures |tokens| == Count(words, Keep) <= |words|
    ensures forall w :: w in tokens <==> w in words && Keep(w)
    ensures forall w :: Keep(w) ==> multiset(tokens)[w] == multiset(words)[w]
    ensures IsSubsequence(tokens, words)
  {
    var tokens := Filter(words, Keep);
    FilterLength(words, Keep);
    FilterIsSubsequence(words, Keep);
    forall w ensures w in tokens <==> w in words && Keep(w) {
      FilterMembership(words, Keep, w);
    }
    forall w | Keep(w) ensures multiset(tokens)[w] == multiset(words)[w] {
      FilterMultiplicity(words, Keep, w);
    }
    tokens
  }

  /** The whole preprocessor. */
  function Preprocess(text: string): (r: Preprocessed)
    ensures r.original == text
    ensures IsCleaned(r.cleaned)
    ensures Join(Split(r.cleaned)) == r.cleaned
    ensures Split(r.cleaned) == Split(ReplaceSpecials(LowerCase(text)))
    ensures r.cleaned == Join(Split(ReplaceSpecials(LowerCase(text))))
    ensures r.wordCount == |Split(r.cleaned)|
    ensures r.tokenCount == |r.tokens| == Count(Split(r.cleaned), Keep) <= r.wordCount
    ensures AllLowerWords(r.tokens)
    ensures forall w :: w in r.tokens <==> w in Split(r.cleaned) && Keep(w)
    ensures forall w :: Keep(w) ==> multiset(r.tokens)[w] == multiset(Split(r.cleaned))[w]
    ensures IsSubsequence(r.tokens, Split(r.cleaned))
  {
    var cleaned := Clean(text);
    var words := Split(cleaned);
    var tokens := KeptTokens(words);
    KeptLower(words);
    Preprocessed(text, cleaned, tokens, |words|, |tokens|)
  }

  /** The kept words of lower-case words are lower-case words. */
  lemma KeptLower(words: seq<string>)
    requires AllLowerWords(words)
    ensures AllLowerWords(KeptTokens(words))
  {
    var tokens := KeptTokens(words);
    forall k | 0 <= k < |tokens| ensures IsLowerWord(tokens[k]) {
      assert tokens[k] in words;
    }
  }

  /** Empty or whitespace-only input yields no words and no tokens, and is
      not an error. */
  lemma BlankInput(text: string)
    requires forall i :: 0 <= i < |text| ==> IsSpace(text[i])
    ensures Preprocess(text).cleaned == ""
    ensures Preprocess(text).wordCount == 0
    ensures Preprocess(text).tokens == [] && Preprocess(text).tokenCount == 0
  {
    var replaced := ReplaceSpecials(LowerCase(text));
    BlankCollapse(replaced);
    assert Clean(text) == "";
  }
}
