# Lexicon-based sentiment analysis, modelled in Dafny

This project models the text pipeline of a small sentiment-analysis service.

The **preprocessor** takes raw text and does the following:
- lower-cases it;
- replaces every character that is neither a word character nor whitespace with a space;
- collapses runs of whitespace into single spaces and trims both ends;
- splits the result into words;
- keeps the words that are longer than two characters and are not stopwords.

It returns the original text, the cleaned text, the kept tokens, and the word and token counts.

The **scorer** makes one pass over the tokens:
- It counts the tokens found in the positive and the negative lexicon.
- For each emotion, in the order of the emotion table, it bumps that emotion's count when the token is one of its words.
- It classifies the result with the ratio rule:
  - no polarity hits gives neutral with confidence 50;
  - a positive ratio above 0.6 gives positive, below 0.4 gives negative, each with confidence `60 + 150·distance`, capped at 98;
  - otherwise neutral with confidence `50 + 100·|ratio − 0.5|`.
- It turns the emotion counts into shares of all emotion hits, in percent, capped at 95.
- It lists the positive and negative keywords in token order.
- It rounds the confidence to two decimals.

Modules:

- `Chars`: the character classes (`\s`, `\w`, lower-casing) on the ASCII range.
- `Seqs`: counting and filtering a sequence by a test, and sub-sequences.
- `Lexicon`: the four word lists of the program and the emotion datatype.
- `Tokenizer`: the string steps of the preprocessor and the shape of their results. `Split` (the `str.split()` of line 103) is given by its definition; what it yields is stated by the lemmas about it (`SplitWords`, `SplitJoin`, `CleanedWords`, `SplitCollapse`, `SplitStrip`).
- `Preprocessing`: the preprocessor itself, as pure functions.
- `Sentiment`: the scorer.
  - `Analyze` is the reference definition of the result.
  - `AnalyzeSentiment` is the source's loop-based procedure, proved equal to `Analyze`.
  - `CountHits` is the nested counting loop; `ScoreEmotions` is the loop that fills the share table.
  - Confidences and shares are exact reals.
  - The word lists are a parameter of type `Lexicons`; `Lexicon.Builtin` is the program's own lists, and every property is proved for any lists.
- `Pipeline`: the two halves together, as the analysis endpoint chains them (`AnalyzeText`). The endpoint itself turns blank text away before calling them; `Pipeline.BlankText` is about the two halves alone.

## Model

| member | source | states |
|---|---|---|
| Chars.Lower | NLP_Sentiment_Analysis_Mini_Project.py:94 | a lower-cased character is never upper-case, keeps its word/whitespace class, and non-upper-case characters are unchanged |
| Tokenizer.LowerCase | NLP_Sentiment_Analysis_Mini_Project.py:94 | lower-casing keeps the length, leaves no upper-case letter, and keeps every position's word/whitespace class |
| Tokenizer.ReplaceSpecials | NLP_Sentiment_Analysis_Mini_Project.py:97 | every character that is neither a word character nor whitespace becomes a space, so the words on either side stay apart; word characters and whitespace are left where they were; the length is kept |
| Tokenizer.NormalizedChars | NLP_Sentiment_Analysis_Mini_Project.py:94-97 | after lower-casing and replacing, the text holds only lower-case word characters and whitespace |
| Tokenizer.Collapse | NLP_Sentiment_Analysis_Mini_Project.py:100 | collapsing is empty exactly when its input is; a leading whitespace run becomes one space; on word-or-whitespace text the result holds only word characters and plain spaces |
| Tokenizer.SplitCollapse | NLP_Sentiment_Analysis_Mini_Project.py:100 | collapsing whitespace keeps every word of the text, in order: the words after collapsing are the words before |
| Tokenizer.CollapseSingleSpaces | NLP_Sentiment_Analysis_Mini_Project.py:100 | after collapsing no two spaces are adjacent |
| Tokenizer.Strip | NLP_Sentiment_Analysis_Mini_Project.py:100 | the stripped text neither starts nor ends with whitespace |
| Tokenizer.StripSlice | NLP_Sentiment_Analysis_Mini_Project.py:100 | stripping keeps one slice of the text and drops only whitespace before and after it |
| Tokenizer.SplitStrip | NLP_Sentiment_Analysis_Mini_Project.py:100 | stripping keeps every word of the text, in order |
| Tokenizer.StripCollapseCleans | NLP_Sentiment_Analysis_Mini_Project.py:100 | collapsing then stripping word-or-whitespace text gives lower-case words separated by single spaces, with no space at either end |
| Tokenizer.TakeWord | NLP_Sentiment_Analysis_Mini_Project.py:103 | the first word is a prefix free of whitespace, ends at whitespace or the end of the text, and is non-empty when the text starts with a non-space |
| Tokenizer.SplitJoin | NLP_Sentiment_Analysis_Mini_Project.py:100-103 | joining the words of a cleaned text with single spaces gives the text back |
| Tokenizer.SplitWords | NLP_Sentiment_Analysis_Mini_Project.py:103 | every word `Split` yields is non-empty and holds no whitespace |
| Tokenizer.CleanedWords | NLP_Sentiment_Analysis_Mini_Project.py:103 | every word of a cleaned text is a non-empty run of lower-case word characters |
| Tokenizer.BlankCollapse | NLP_Sentiment_Analysis_Mini_Project.py:100 | text made only of whitespace collapses and strips to the empty string |
| Preprocessing.Clean | NLP_Sentiment_Analysis_Mini_Project.py:94-100 | the cleaned text is the words of the lower-cased text, with special characters turned into spaces, joined by single spaces: it has exactly those words in order, lower-case word runs, single spaces and no space at either end |
| Preprocessing.KeptTokens | NLP_Sentiment_Analysis_Mini_Project.py:109-112 | the tokens are exactly the words that are not stopwords and are longer than two characters, each as often as among the words, in their original relative order; there are no more tokens than words |
| Preprocessing.Preprocess | NLP_Sentiment_Analysis_Mini_Project.py:73-120 | the original is returned unchanged; the cleaned text is the input's words (after lower-casing and removing special characters) joined by single spaces; the word count is the number of those words; the tokens are lower-case words, an order-preserving sub-list of the words holding every word that passes the test as often as it occurs and no other; the token count is their number and at most the word count |
| Preprocessing.BlankInput | NLP_Sentiment_Analysis_Mini_Project.py:100-119 | empty or whitespace-only input gives an empty cleaned text, no words and no tokens, with no error |
| Sentiment.EmotionCounts | NLP_Sentiment_Analysis_Mini_Project.py:137-152 | the emotion table holds exactly the emotions with at least one hit, each with its number of hits |
| Sentiment.CountHits | NLP_Sentiment_Analysis_Mini_Project.py:135-152 | the counting loop leaves the positive score equal to the number of positive tokens, the negative score equal to the number of negative tokens, and the emotion table equal to the table of nonzero hit counts |
| Sentiment.Share | NLP_Sentiment_Analysis_Mini_Project.py:179 | a share lies in [0, 95], is positive when the count is, and is exactly 95 when the count is at least 95% of the total |
| Sentiment.ShareValue | NLP_Sentiment_Analysis_Mini_Project.py:179 | below the cap a share is exactly the percentage: share · total = 100 · count; from 95% of the total on it is exactly 95 |
| Sentiment.ShareRatio | NLP_Sentiment_Analysis_Mini_Project.py:179 | two shares of one total below the cap stand in the ratio of their counts |
| Sentiment.ScoreEmotions | NLP_Sentiment_Analysis_Mini_Project.py:174-179 | the share loop builds the share table of the counts: empty when there are no hits, otherwise one capped share per emotion in the table |
| Sentiment.ShareValues | NLP_Sentiment_Analysis_Mini_Project.py:174-179 | the shares hold exactly the emotions of a table whose total is positive, each with the capped share of its count in that total |
| Sentiment.EvenShares | NLP_Sentiment_Analysis_Mini_Project.py:174-179 | one joy hit and one sadness hit give joy 50 and sadness 50 |
| Sentiment.Classify | NLP_Sentiment_Analysis_Mini_Project.py:155-171 | the verdict is positive exactly when the ratio exceeds 0.6 (2·pos > 3·neg), negative exactly when it is below 0.4 (3·pos < 2·neg); a polar verdict has confidence in (60, 98], a neutral one in [50, 60]; no polarity hits gives neutral at exactly 50 |
| Sentiment.RatioThresholds | NLP_Sentiment_Analysis_Mini_Project.py:161-168 | the real-valued ratio tests `> 0.6` and `< 0.4` are equivalent to the integer comparisons 2·pos > 3·neg and 3·pos < 2·neg, and the ratio lies in [0, 1] |
| Sentiment.ClassifySymmetric | NLP_Sentiment_Analysis_Mini_Project.py:161-171 | swapping the two scores swaps positive and negative, keeps neutral, and leaves the confidence unchanged |
| Sentiment.ConfidenceValue | NLP_Sentiment_Analysis_Mini_Project.py:161-171 | the confidence in closed form over the counts: positive (120·pos − 30·neg)/(pos + neg), capped at 98 exactly when 11·pos ≥ 64·neg; negative (120·neg − 30·pos)/(pos + neg), capped at 98 exactly when 11·neg ≥ 64·pos; neutral 100·max(pos, neg)/(pos + neg) |
| Sentiment.PositiveConfidence | NLP_Sentiment_Analysis_Mini_Project.py:163-165 | the positive branch of that closed form, for every count with 2·pos > 3·neg |
| Sentiment.NegativeConfidence | NLP_Sentiment_Analysis_Mini_Project.py:166-168 | the negative branch of that closed form, for every count with 3·pos < 2·neg |
| Sentiment.NeutralConfidence | NLP_Sentiment_Analysis_Mini_Project.py:169-171 | the neutral branch of that closed form, for every count in the neutral band |
| Sentiment.ConfidenceLandmarks | NLP_Sentiment_Analysis_Mini_Project.py:161-171 | with some polarity hit: positive at 98 exactly when 11·pos ≥ 64·neg, negative at 98 exactly when 11·neg ≥ 64·pos, confidence 50 exactly when pos = neg, neutral at 60 exactly when 2·pos = 3·neg or 3·pos = 2·neg |
| Sentiment.ClassifyExamples | NLP_Sentiment_Analysis_Mini_Project.py:155-171 | two positive hits alone give positive at 98, two negative hits alone negative at 98, one of each neutral at 50 |
| Sentiment.Round2 | NLP_Sentiment_Analysis_Mini_Project.py:187 | the rounded value is a whole number of hundredths within half a hundredth of the input |
| Sentiment.RoundWithin | NLP_Sentiment_Analysis_Mini_Project.py:187 | rounding a value between two whole numbers stays between them |
| Sentiment.RoundExact | NLP_Sentiment_Analysis_Mini_Project.py:187 | a value that is already a whole number of hundredths is unchanged by rounding |
| Sentiment.RoundedPositiveAtSixty | NLP_Sentiment_Analysis_Mini_Project.py:163-187 | 60001 positive against 39999 negative hits is positive with confidence 60.0015, which rounds to exactly 60 |
| Sentiment.AnalyzeSentiment | NLP_Sentiment_Analysis_Mini_Project.py:124-195 | the scorer's loop-based procedure returns exactly the reference analysis `Analyze` |
| Sentiment.Keywords | NLP_Sentiment_Analysis_Mini_Project.py:140-183 | each polarity score equals the length of its keyword list; each keyword list is an order-preserving filter of the tokens holding exactly the tokens of its lexicon |
| Sentiment.ConfidenceRange | NLP_Sentiment_Analysis_Mini_Project.py:155-187 | the reported confidence is always in [50, 98], at least 60 for a polar verdict, at most 60 for a neutral one, and exactly 50 with neutral when there are no polarity hits |
| Sentiment.PolarityOutcomes | NLP_Sentiment_Analysis_Mini_Project.py:155-187 | at the scorer's output: only positive hits give positive at 98, only negative hits negative at 98, equally many of each neutral at 50 |
| Sentiment.EmotionSharesOfHits | NLP_Sentiment_Analysis_Mini_Project.py:174-179 | the emotion map holds exactly the emotions with at least one hit, each with a value in (0, 95] |
| Sentiment.SoleEmotion | NLP_Sentiment_Analysis_Mini_Project.py:175-179 | when only one emotion is hit, the emotion map gives it exactly 95 and holds nothing else |
| Sentiment.PermutationInvariant | NLP_Sentiment_Analysis_Mini_Project.py:140-183 | reordering the tokens changes neither the scores, the verdict, the confidence nor the emotion map, and the keyword lists only by order |
| Sentiment.NoTokens | NLP_Sentiment_Analysis_Mini_Project.py:155-159 | no tokens gives neutral at 50, zero scores, no emotions and empty keyword lists |
| Pipeline.SameEmotionCounts | NLP_Sentiment_Analysis_Mini_Project.py:149-152 | dropping words that are in no emotion's list leaves the emotion table unchanged |
| Pipeline.FilterIsTransparent | NLP_Sentiment_Analysis_Mini_Project.py:140-183 | dropping words that are in none of the lists leaves the whole analysis unchanged |
| Pipeline.BlankText | NLP_Sentiment_Analysis_Mini_Project.py:215-218 | preprocessing then scoring empty or whitespace-only text with the program's own lists gives neutral at exactly 50, zero scores, no emotions and no keywords |
| Pipeline.AnalyzeText | NLP_Sentiment_Analysis_Mini_Project.py:215-218 | preprocessing then scoring with the program's lists reports a confidence in [50, 98] and keyword lists drawn in order from the tokens, one per polarity hit |
| Pipeline.TextAnalysis | NLP_Sentiment_Analysis_Mini_Project.py:215-218 | when every listed word is longer than two characters and not a stopword, analysing the preprocessor's tokens gives the analysis of every word of the cleaned text |

## Left out

- The web layer is not modelled: the Flask application, the `/analyze` route, request parsing, the 400 response for empty input and the catch-all 500 response. It is I/O around the pipeline.
- The `id` and `timestamp` fields of a response are not modelled; they come from the wall clock.
- The HTML/JavaScript dashboard (history, counters, export) and the server start-up banner and `app.run` are user interface and I/O.
- The unused imports `threading` and `Counter` do nothing in the pipeline.
- Character classes cover ASCII only. Python's `str.lower`, `\w` and `\s` follow Unicode. Here, a non-ASCII character counts as neither a word character nor whitespace, so it is replaced by a space. For example, accented letters are not kept as word characters.
- Sentiment.Classify: the ratio, confidence and emotion shares are exact reals, not IEEE doubles. A ratio that a double cannot represent exactly (such as 2/3) can compare with 0.6 or 0.4 differently by at most a rounding error. The model does not capture that.
- Sentiment.Round2: `round(confidence, 2)` is modelled as round-half-to-even to hundredths of the exact real. The program rounds the nearest double, so the two can differ on a value that lies within a rounding error of a tie.
- Sentiment.ConfidenceRange: it states `60 <= confidence` for a positive or negative verdict, not `60 < confidence`. Rounding to two decimals can give exactly 60 (Sentiment.RoundedPositiveAtSixty). The strict bound holds before rounding (Sentiment.Classify).
- The iteration order of the `detected_emotions` and `emotion_scores` dictionaries is not modelled; they are maps. The counting loop still visits the emotions in the emotion table's order (`Lexicon.Emotions`).
- `sum(detected_emotions.values())` is modelled as the sum of the counts over the fixed list of the five emotions. Absent emotions contribute 0.
- Pipeline.TextAnalysis: it takes as a hypothesis that every word of the lists is longer than two characters and not a stopword. This holds for the program's lists by inspection, but the model does not prove it for `Lexicon.Builtin`: deciding membership in the 73-word stopword set is beyond the solver within the resource limit.
