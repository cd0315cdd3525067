/** The lexicon-based scorer: one pass over the tokens counts polarity hits
    and hits per emotion, the counts are turned into a verdict with a
    confidence and into emotion shares, and the tokens found in each polarity
    lexicon are listed as keywords. Confidences and shares are exact reals.
    The word lists are a parameter `lex`; the program runs the scorer with
    `Lexicon.Builtin`, and everything proved here holds for any lists. */
module Sentiment {
  import opened Seqs
  import opened Lexicon

  datatype Sentiment = Positive | Negative | Neutral

  /** A verdict and its confidence, in percent. */
  datatype Rating = Rating(sentiment: Sentiment, confidence: real)

  /** What the scorer hands back. */
  datatype Analysis = Analysis(
    sentiment: Sentiment,
    confidence: real,
    positiveScore: nat,
    negativeScore: nat,
    emotions: map<Emotion, real>,
    positiveKeywords: seq<string>,
    negativeKeywords: seq<string>)

  /** The test a token passes when it is in the positive lexicon. */
  function IsPositive(lex: Lexicons): string -> bool
  {
    w => w in lex.positive
  }

  /** The test a token passes when it is in the negative lexicon. */
  function IsNegative(lex: Lexicons): string -> bool
  {
    w => w in lex.negative
  }

  /** The test a token passes when it is one of the words of emotion `e`. */
  function Evokes(lex: Lexicons, e: Emotion): string -> bool
  {
    w => w in lex.emotionWords(e)
  }

  /** How many tokens are words of emotion `e`. */
  function Hits(lex: Lexicons, tokens: seq<string>, e: Emotion): nat
  {
    Count(tokens, Evokes(lex, e))
  }

  /** The count an emotion table holds for `e`, zero when `e` is absent, as a
      dictionary lookup with a default of 0 gives it. */
  function Get(m: map<Emotion, nat>, e: Emotion): nat
  {
    if e in m then m[e] else 0
  }

  /** The emotion table after counting `tokens`: the emotions hit at least
      once, each with its number of hits. */
  function EmotionCounts(lex: Lexicons, tokens: seq<string>): (m: map<Emotion, nat>)
    ensures forall e :: e in m <==> Hits(lex, tokens, e) > 0
    ensures forall e :: Get(m, e) == Hits(lex, tokens, e)
  {
    AllListed();
    map e | e in Emotions && Hits(lex, tokens, e) > 0 :: Hits(lex, tokens, e)
  }

  /** `m` holds exactly the nonzero hit counts of `tokens`. */
  predicate IsCountTable(lex: Lexicons, m: map<Emotion, nat>, tokens: seq<string>)
  {
    forall e :: Get(m, e) == Hits(lex, tokens, e) && (e in m ==> m[e] > 0)
  }

  /** Sum of the counts over the emotions of `es`. */
  function SumOver(es: seq<Emotion>, m: map<Emotion, nat>): nat
  {
    if |es| == 0 then 0 else Get(m, es[0]) + SumOver(es[1..], m)
  }

  /** The sum of the values of an emotion table. */
  function Total(m: map<Emotion, nat>): nat
  {
    SumOver(Emotions, m)
  }

  /** The share of one emotion in percent, capped at 95. */
  function Share(count: nat, total: nat): (s: real)
    requires total > 0
    ensures 0.0 <= s <= 95.0
    ensures count > 0 ==> s > 0.0
    ensures count >= total ==> s == 95.0
    ensures 20 * count >= 19 * total ==> s == 95.0
  {
    var p := count as real / total as real * 100.0;
    DivBelow(count as real, total as real, 0.95);
    if p < 95.0 then p else 95.0
  }

  /** A share is the percentage 100 count / total, unless that reaches 95,
      where it is capped. */
  lemma ShareValue(count: nat, total: nat)
    requires total > 0
    ensures 20 * count < 19 * total ==> Share(count, total) * total as real == 100.0 * count as real
    ensures 20 * count >= 19 * total ==> Share(count, total) == 95.0
  {
    var p := count as real / total as real * 100.0;
    DivBelow(count as real, total as real, 0.95);
    Affine(count as real, total as real, 100.0, 0.0);
    DivEquals(count as real * 100.0, total as real, p);
  }

  /** The emotion shares: empty when nothing was hit, otherwise one share per
      emotion in the table. */
  function EmotionShares(m: map<Emotion, nat>): map<Emotion, real>
  {
    var total := Total(m);
    if total == 0 then map[] else map e | e in m :: Share(m[e], total)
  }

  function Min(a: real, b: real): real
  {
    if a <= b then a else b
  }

  function Abs(x: real): real
  {
    if x < 0.0 then -x else x
  }

  /** The piecewise ratio rule. The verdict is positive exactly when the
      positive share of the polarity hits exceeds 0.6, that is when twice
      the positive hits exceed three times the negative ones, and negative
      exactly when that share is below 0.4; a positive or negative verdict
      has a confidence above 60 and at most 98, a neutral one between 50 and
      60, and without any polarity hit the rating is neutral at 50. */
  function Classify(pos: nat, neg: nat): (c: Rating)
    ensures c.sentiment == Positive <==> 2 * pos > 3 * neg
    ensures c.sentiment == Negative <==> 3 * pos < 2 * neg
    ensures c.sentiment != Neutral ==> 60.0 < c.confidence <= 98.0
    ensures c.sentiment == Neutral ==> 50.0 <= c.confidence <= 60.0
    ensures pos + neg == 0 ==> c == Rating(Neutral, 50.0)
  {
    var total := pos + neg;
    if total == 0 then Rating(Neutral, 50.0)
    else
      var ratio := pos as real / total as real;
      RatioThresholds(pos, neg);
      if ratio > 0.6 then Rating(Positive, Min(60.0 + (ratio - 0.6) * 150.0, 98.0))
      else if ratio < 0.4 then Rating(Negative, Min(60.0 + (0.4 - ratio) * 150.0, 98.0))
      else Rating(Neutral, 50.0 + Abs(ratio - 0.5) * 100.0)
  }

  /** The ratio thresholds in integer terms. */
  lemma RatioThresholds(pos: nat, neg: nat)
    requires pos + neg > 0
    ensures pos as real / (pos + neg) as real > 0.6 <==> 2 * pos > 3 * neg
    ensures pos as real / (pos + neg) as real < 0.4 <==> 3 * pos < 2 * neg
    ensures 0.0 <= pos as real / (pos + neg) as real <= 1.0
  {
    var t := (pos + neg) as real;
    DivAbove(pos as real, t, 0.6);
    DivBelow(pos as real, t, 0.4);
    DivAbove(pos as real, t, 1.0);
    DivBelow(pos as real, t, 0.0);
  }

  lemma DivAbove(x: real, t: real, c: real)
    requires t > 0.0
    ensures x / t > c <==> x > c * t
  {
  }

  lemma DivBelow(x: real, t: real, c: real)
    requires t > 0.0
    ensures x / t < c <==> x < c * t
  {
  }

  /** Swapping the positive and negative hits swaps a positive verdict with
      a negative one and keeps the confidence. */
  lemma ClassifySymmetric(pos: nat, neg: nat)
    ensures Classify(neg, pos).confidence == Classify(pos, neg).confidence
    ensures Classify(pos, neg).sentiment == Positive <==> Classify(neg, pos).sentiment == Negative
    ensures Classify(pos, neg).sentiment == Neutral <==> Classify(neg, pos).sentiment == Neutral
  {
    if pos + neg > 0 {
      var t := (pos + neg) as real;
      var ratio := pos as real / t;
      ComplementRatio(pos as real, neg as real);
    }
  }

  lemma ComplementRatio(x: real, y: real)
    requires x + y > 0.0
    ensures y / (x + y) == 1.0 - x / (x + y)
  {
    var t := x + y;
    assert y == t - x;
    assert (t - x) / t == t / t - x / t;
    assert t / t == 1.0;
  }

  /** `x / t == c` in terms of `x` itself. */
  lemma DivEquals(x: real, t: real, c: real)
    requires t > 0.0
    ensures x / t == c <==> x == c * t
  {
  }

  /** An affine function of a quotient is one quotient. */
  lemma Affine(x: real, t: real, k: real, b: real)
    requires t > 0.0
    ensures x / t * k + b == (x * k + b * t) / t
  {
    var q := x / t;
    assert q * t == x;
    assert (q * k + b) * t == x * k + b * t;
    DivEquals(x * k + b * t, t, q * k + b);
  }

  /** The confidence in closed form over the hit counts. A positive verdict
      has (120 pos - 30 neg) / (pos + neg), which reaches the cap of 98
      exactly when 11 pos >= 64 neg; a negative verdict mirrors it; a neutral
      one has 100 max(pos, neg) / (pos + neg). */
  lemma ConfidenceValue(pos: nat, neg: nat)
    requires pos + neg > 0
    ensures Classify(pos, neg).sentiment == Positive ==>
      Classify(pos, neg).confidence ==
        if 11 * pos >= 64 * neg then 98.0 else (120 * pos - 30 * neg) as real / (pos + neg) as real
    ensures Classify(pos, neg).sentiment == Negative ==>
      Classify(pos, neg).confidence ==
        if 11 * neg >= 64 * pos then 98.0 else (120 * neg - 30 * pos) as real / (pos + neg) as real
    ensures Classify(pos, neg).sentiment == Neutral ==>
      Classify(pos, neg).confidence == (if pos >= neg then pos else neg) as real * 100.0 / (pos + neg) as real
  {
    if 2 * pos > 3 * neg {
      PositiveConfidence(pos, neg);
    } else if 3 * pos < 2 * neg {
      NegativeConfidence(pos, neg);
    } else {
      NeutralConfidence(pos, neg);
    }
  }

  /** The positive branch of the closed form. */
  lemma PositiveConfidence(pos: nat, neg: nat)
    requires 2 * pos > 3 * neg
    ensures Classify(pos, neg).confidence ==
      if 11 * pos >= 64 * neg then 98.0 else (120 * pos - 30 * neg) as real / (pos + neg) as real
  {
    var t := (pos + neg) as real;
    var ratio := pos as real / t;
    RatioThresholds(pos, neg);
    Affine(pos as real, t, 150.0, -30.0);
    assert 60.0 + (ratio - 0.6) * 150.0 == (120 * pos - 30 * neg) as real / t;
    DivBelow(pos as real, t, 64.0 / 75.0);
  }

  /** The negative branch of the closed form. */
  lemma NegativeConfidence(pos: nat, neg: nat)
    requires 3 * pos < 2 * neg
    ensures Classify(pos, neg).confidence ==
      if 11 * neg >= 64 * pos then 98.0 else (120 * neg - 30 * pos) as real / (pos + neg) as real
  {
    var t := (pos + neg) as real;
    var ratio := pos as real / t;
    RatioThresholds(pos, neg);
    Affine(pos as real, t, -150.0, 120.0);
    assert 60.0 + (0.4 - ratio) * 150.0 == (120 * neg - 30 * pos) as real / t;
    DivAbove(pos as real, t, 11.0 / 75.0);
  }

  /** The neutral branch of the closed form. */
  lemma NeutralConfidence(pos: nat, neg: nat)
    requires pos + neg > 0 && 2 * pos <= 3 * neg && 3 * pos >= 2 * neg
    ensures Classify(pos, neg).confidence ==
      (if pos >= neg then pos else neg) as real * 100.0 / (pos + neg) as real
  {
    var t := (pos + neg) as real;
    RatioThresholds(pos, neg);
    DivBelow(pos as real, t, 0.5);
    if pos >= neg {
      Affine(pos as real, t, 100.0, 0.0);
    } else {
      Affine(pos as real, t, -100.0, 100.0);
      assert -100.0 * pos as real + 100.0 * t == neg as real * 100.0;
    }
  }

  /** Where the confidence takes its landmark values: 98 exactly when the
      polar skew reaches 11 to 64, 50 exactly when the hits balance, and a
      neutral 60 exactly at a ratio of 0.6 or 0.4. */
  lemma ConfidenceLandmarks(pos: nat, neg: nat)
    requires pos + neg > 0
    ensures Classify(pos, neg) == Rating(Positive, 98.0) <==> 11 * pos >= 64 * neg
    ensures Classify(pos, neg) == Rating(Negative, 98.0) <==> 11 * neg >= 64 * pos
    ensures Classify(pos, neg).confidence == 50.0 <==> pos == neg
    ensures Classify(pos, neg) == Rating(Neutral, 60.0) <==> 2 * pos == 3 * neg || 3 * pos == 2 * neg
  {
    var t := (pos + neg) as real;
    var c := Classify(pos, neg);
    ConfidenceValue(pos, neg);
    if c.sentiment == Positive {
      if 11 * pos < 64 * neg {
        DivBelow((120 * pos - 30 * neg) as real, t, 98.0);
      }
    } else if c.sentiment == Negative {
      if 11 * neg < 64 * pos {
        DivBelow((120 * neg - 30 * pos) as real, t, 98.0);
      }
    } else {
      var top := (if pos >= neg then pos else neg) as real * 100.0;
      DivEquals(top, t, 50.0);
      DivEquals(top, t, 60.0);
    }
  }

  /** The rule on small counts: two positive hits alone are positive at 98,
      two negative hits alone negative at 98, one of each neutral at 50. */
  lemma ClassifyExamples()
    ensures Classify(2, 0) == Rating(Positive, 98.0)
    ensures Classify(0, 2) == Rating(Negative, 98.0)
    ensures Classify(1, 1) == Rating(Neutral, 50.0)
  {
    ConfidenceLandmarks(2, 0);
    ConfidenceLandmarks(0, 2);
    ConfidenceLandmarks(1, 1);
  }

  /** Rounding to two decimal places, ties to the even hundredth. */
  function Round2(x: real): (y: real)
    ensures (y * 100.0).Floor as real == y * 100.0
    ensures x - 0.005 <= y <= x + 0.005
  {
    var scaled := x * 100.0;
    var low := scaled.Floor;
    var frac := scaled - low as real;
    var n := if frac > 0.5 then low + 1
             else if frac < 0.5 then low
             else if low % 2 == 0 then low else low + 1;
    n as real / 100.0
  }

  /** Rounding never crosses a whole number. */
  lemma RoundWithin(x: real, lo: int, hi: int)
    requires lo as real <= x <= hi as real
    ensures lo as real <= Round2(x) <= hi as real
  {
    var scaled := x * 100.0;
    var low := scaled.Floor;
    assert 100 * lo <= low <= 100 * hi;
    if low == 100 * hi {
      assert scaled == low as real;
    }
  }

  /** A whole hundredth rounds to itself. */
  lemma RoundExact(n: int)
    ensures Round2(n as real / 100.0) == n as real / 100.0
  {
    var scaled := (n as real / 100.0) * 100.0;
    assert scaled == n as real;
    assert scaled.Floor == n;
  }

  /** Rounding can bring a positive confidence down to 60 itself: 60001
      positive against 39999 negative hits is positive with an unrounded
      confidence of 60.0015, reported as 60.00. */
  lemma RoundedPositiveAtSixty()
    ensures Classify(60001, 39999).sentiment == Positive
    ensures Classify(60001, 39999).confidence == 60.0015
    ensures Round2(Classify(60001, 39999).confidence) == 60.0
  {
    assert 60001.0 / 100000.0 == 0.60001;
    var scaled := 60.0015 * 100.0;
    assert scaled.Floor == 6000;
  }

  /** The result of the scorer, stated as one expression over the tokens. */
  function Analyze(lex: Lexicons, tokens: seq<string>): Analysis
  {
    var pos := Count(tokens, IsPositive(lex));
    var neg := Count(tokens, IsNegative(lex));
    var rating := Classify(pos, neg);
    Analysis(rating.sentiment, Round2(rating.confidence), pos, neg,
             EmotionShares(EmotionCounts(lex, tokens)),
             Filter(tokens, IsPositive(lex)), Filter(tokens, IsNegative(lex)))
  }

  /** The polarity scores count the tokens found in each polarity lexicon,
      and the keyword lists are the order-preserving filters of the tokens by
      those lexicons, as long as the scores. */
  lemma Keywords(lex: Lexicons, tokens: seq<string>)
    ensures Analyze(lex, tokens).positiveScore == |Analyze(lex, tokens).positiveKeywords|
    ensures Analyze(lex, tokens).negativeScore == |Analyze(lex, tokens).negativeKeywords|
    ensures IsSubsequence(Analyze(lex, tokens).positiveKeywords, tokens)
    ensures IsSubsequence(Analyze(lex, tokens).negativeKeywords, tokens)
    ensures forall w :: w in Analyze(lex, tokens).positiveKeywords <==> w in tokens && w in lex.positive
    ensures forall w :: w in Analyze(lex, tokens).negativeKeywords <==> w in tokens && w in lex.negative
  {
    FilterLength(tokens, IsPositive(lex));
    FilterLength(tokens, IsNegative(lex));
    FilterIsSubsequence(tokens, IsPositive(lex));
    FilterIsSubsequence(tokens, IsNegative(lex));
    forall w
      ensures w in Filter(tokens, IsPositive(lex)) <==> w in tokens && w in lex.positive
      ensures w in Filter(tokens, IsNegative(lex)) <==> w in tokens && w in lex.negative
    {
      FilterMembership(tokens, IsPositive(lex), w);
      FilterMembership(tokens, IsNegative(lex), w);
    }
  }

  /** The reported confidence lies between 50 and 98; a positive or negative
      verdict reports at least 60, a neutral one at most 60, and a text
      without polarity hits is neutral at exactly 50. */
  lemma ConfidenceRange(lex: Lexicons, tokens: seq<string>)
    ensures 50.0 <= Analyze(lex, tokens).confidence <= 98.0
    ensures Analyze(lex, tokens).sentiment != Neutral ==> 60.0 <= Analyze(lex, tokens).confidence
    ensures Analyze(lex, tokens).sentiment == Neutral ==> Analyze(lex, tokens).confidence <= 60.0
    ensures Analyze(lex, tokens).positiveScore + Analyze(lex, tokens).negativeScore == 0 ==>
              Analyze(lex, tokens).sentiment == Neutral && Analyze(lex, tokens).confidence == 50.0
  {
    var rating := Classify(Count(tokens, IsPositive(lex)), Count(tokens, IsNegative(lex)));
    if rating.sentiment == Neutral {
      RoundWithin(rating.confidence, 50, 60);
      RoundExact(5000);
    } else {
      RoundWithin(rating.confidence, 60, 98);
    }
  }

  /** The emotion shares hold exactly the emotions hit at least once, each
      with a share above 0 and at most 95. */
  lemma EmotionSharesOfHits(lex: Lexicons, tokens: seq<string>)
    ensures forall e :: e in Analyze(lex, tokens).emotions <==> Hits(lex, tokens, e) > 0
    ensures forall e :: e in Analyze(lex, tokens).emotions ==> 0.0 < Analyze(lex, tokens).emotions[e] <= 95.0
  {
    var m := EmotionCounts(lex, tokens);
    forall e | e in m
      ensures Total(m) > 0
    {
      SumOverPositive(Emotions, m, e);
    }
  }

  /** The shares hold exactly the emotions of a table with some hit, each
      with its share of the table's total; `ShareValue` gives that share's
      value. */
  lemma ShareValues(m: map<Emotion, nat>)
    ensures forall e :: e in EmotionShares(m) <==> e in m && Total(m) > 0
    ensures forall e :: e in EmotionShares(m) ==> EmotionShares(m)[e] == Share(m[e], Total(m))
  {
  }

  /** Two shares of one total below the cap stand in the ratio of their
      counts. */
  lemma ShareRatio(a: nat, b: nat, total: nat)
    requires total > 0 && Share(a, total) < 95.0 && Share(b, total) < 95.0
    ensures Share(a, total) * b as real == Share(b, total) * a as real
  {
    ShareValue(a, total);
    ShareValue(b, total);
    Proportion(Share(a, total), Share(b, total), a as real, b as real, total as real);
  }

  /** From x t == 100 a and y t == 100 b with t > 0 follows x b == y a. */
  lemma Proportion(x: real, y: real, a: real, b: real, t: real)
    requires t > 0.0
    requires x * t == 100.0 * a && y * t == 100.0 * b
    ensures x * b == y * a
  {
    assert x * b * t == x * t * b == 100.0 * a * b;
    assert y * a * t == y * t * a == 100.0 * a * b;
    assert (x * b - y * a) * t == 0.0;
  }

  /** One joy hit and one sadness hit split the shares evenly. */
  lemma EvenShares()
    ensures EmotionShares(map[Joy := 1, Sadness := 1]) == map[Joy := 50.0, Sadness := 50.0]
  {
    assert Total(map[Joy := 1, Sadness := 1]) == 2;
  }

  /** The polarity outcomes at the scorer's output: only positive hits give
      positive at 98, only negative hits negative at 98, and as many positive
      as negative hits neutral at 50. */
  lemma PolarityOutcomes(lex: Lexicons, tokens: seq<string>)
    ensures Analyze(lex, tokens).positiveScore > 0 && Analyze(lex, tokens).negativeScore == 0 ==>
              Analyze(lex, tokens).sentiment == Positive && Analyze(lex, tokens).confidence == 98.0
    ensures Analyze(lex, tokens).negativeScore > 0 && Analyze(lex, tokens).positiveScore == 0 ==>
              Analyze(lex, tokens).sentiment == Negative && Analyze(lex, tokens).confidence == 98.0
    ensures Analyze(lex, tokens).positiveScore == Analyze(lex, tokens).negativeScore ==>
              Analyze(lex, tokens).sentiment == Neutral && Analyze(lex, tokens).confidence == 50.0
  {
    var pos, neg := Count(tokens, IsPositive(lex)), Count(tokens, IsNegative(lex));
    if pos + neg > 0 {
      ConfidenceLandmarks(pos, neg);
    }
    RoundExact(9800);
    RoundExact(5000);
  }

  /** An emotion that accounts for every hit gets the capped share of 95. */
  lemma SoleEmotion(lex: Lexicons, tokens: seq<string>, e: Emotion)
    requires Hits(lex, tokens, e) > 0
    requires forall d :: d != e ==> Hits(lex, tokens, d) == 0
    ensures Analyze(lex, tokens).emotions == map[e := 95.0]
  {
    var m := EmotionCounts(lex, tokens);
    AllListed();
    SumOverSole(Emotions, m, e);
    assert Total(m) == Get(m, e);
  }

  /** A sum over a list holding `e` is at least the count of `e`. */
  lemma {:induction false} SumOverPositive(es: seq<Emotion>, m: map<Emotion, nat>, e: Emotion)
    requires e in es
    ensures Get(m, e) <= SumOver(es, m)
  {
    if es[0] != e {
      SumOverPositive(es[1..], m, e);
    }
  }

  /** When only `e` has a count, a sum over a list holding `e` once is that
      count. */
  lemma {:induction false} SumOverSole(es: seq<Emotion>, m: map<Emotion, nat>, e: Emotion)
    requires forall d :: d != e ==> Get(m, d) == 0
    requires forall i, j :: 0 <= i < j < |es| ==> es[i] != es[j]
    ensures SumOver(es, m) == if e in es then Get(m, e) else 0
  {
    if |es| > 0 {
      SumOverSole(es[1..], m, e);
      if es[0] == e {
        assert e !in es[1..];
      }
    }
  }

  /** Reordering the tokens changes neither the scores, nor the verdict, nor
      the confidence, nor the emotion shares, and each keyword list holds
      the same words as often as before. */
  lemma PermutationInvariant(lex: Lexicons, a: seq<string>, b: seq<string>)
    requires multiset(a) == multiset(b)
    ensures Analyze(lex, a).positiveScore == Analyze(lex, b).positiveScore
    ensures Analyze(lex, a).negativeScore == Analyze(lex, b).negativeScore
    ensures Analyze(lex, a).sentiment == Analyze(lex, b).sentiment
    ensures Analyze(lex, a).confidence == Analyze(lex, b).confidence
    ensures Analyze(lex, a).emotions == Analyze(lex, b).emotions
    ensures multiset(Analyze(lex, a).positiveKeywords) == multiset(Analyze(lex, b).positiveKeywords)
    ensures multiset(Analyze(lex, a).negativeKeywords) == multiset(Analyze(lex, b).negativeKeywords)
  {
    CountPermutation(a, b, IsPositive(lex));
    CountPermutation(a, b, IsNegative(lex));
    forall e
      ensures Hits(lex, a, e) == Hits(lex, b, e)
    {
      CountPermutation(a, b, Evokes(lex, e));
    }
    var ma, mb := EmotionCounts(lex, a), EmotionCounts(lex, b);
    assert ma == mb by {
      forall e
        ensures Get(ma, e) == Get(mb, e)
      {
      }
    }
    FilterPermutation(a, b, IsPositive(lex));
    FilterPermutation(a, b, IsNegative(lex));
  }

  /** No tokens: neutral at 50, no hits, no emotions and no keywords. */
  lemma NoTokens(lex: Lexicons)
    ensures Analyze(lex, []) == Analysis(Neutral, 50.0, 0, 0, map[], [], [])
  {
    RoundExact(5000);
    var m := EmotionCounts(lex, []);
    assert m == map[] by {
      forall e
        ensures e !in m
      {
        assert Hits(lex, [], e) == 0;
      }
    }
    assert EmotionShares(m) == map[];
  }

  /** The scorer as the source writes it: a counting pass over the tokens,
      the ratio rule, the emotion shares and the two keyword lists. */
  method AnalyzeSentiment(lex: Lexicons, tokens: seq<string>) returns (r: Analysis)
    ensures r == Analyze(lex, tokens)
  {
    var positiveScore, negativeScore, detected := CountHits(lex, tokens);

    var sentiment;
    var confidence;
    var total := positiveScore + negativeScore;
    if total == 0 {
      sentiment := Neutral;
      confidence := 50.0;
    } else {
      var ratio := positiveScore as real / total as real;
      if ratio > 0.6 {
        sentiment := Positive;
        confidence := Min(60.0 + (ratio - 0.6) * 150.0, 98.0);
      } else if ratio < 0.4 {
        sentiment := Negative;
        confidence := Min(60.0 + (0.4 - ratio) * 150.0, 98.0);
      } else {
        sentiment := Neutral;
        confidence := 50.0 + Abs(ratio - 0.5) * 100.0;
      }
    }

    var emotionScores := ScoreEmotions(detected);

    var positiveKeywords := Filter(tokens, IsPositive(lex));
    var negativeKeywords := Filter(tokens, IsNegative(lex));
    r := Analysis(sentiment, Round2(confidence), positiveScore, negativeScore,
                  emotionScores, positiveKeywords, negativeKeywords);
  }

  /** The counting pass: for every token, bump the polarity counters when it
      is in a polarity lexicon and, visiting the emotions in order, bump the
      count of every emotion it is a word of. */
  method CountHits(lex: Lexicons, tokens: seq<string>)
    returns (positiveScore: nat, negativeScore: nat, detected: map<Emotion, nat>)
    ensures positiveScore == Count(tokens, IsPositive(lex))
    ensures negativeScore == Count(tokens, IsNegative(lex))
    ensures detected == EmotionCounts(lex, tokens)
  {
    positiveScore := 0;
    negativeScore := 0;
    detected := map[];
    for i := 0 to |tokens|
      invariant positiveScore == Count(tokens[..i], IsPositive(lex))
      invariant negativeScore == Count(tokens[..i], IsNegative(lex))
      invariant IsCountTable(lex, detected, tokens[..i])
    {
      var token := tokens[i];
      CountStep(tokens, i, IsPositive(lex));
      CountStep(tokens, i, IsNegative(lex));
      HitsStep(lex, tokens, i);
      if token in lex.positive {
        positiveScore := positiveScore + 1;
      }
      if token in lex.negative {
        negativeScore := negativeScore + 1;
      }
      ghost var before := detected;
      for j := 0 to |Emotions|
        invariant forall e :: e in detected ==> detected[e] > 0
        invariant forall e :: Get(detected, e) == Bumped(lex, before, token, j, e)
      {
        var emotion := Emotions[j];
        PositionOf(j);
        ghost var prev := detected;
        if token in lex.emotionWords(emotion) {
          detected := detected[emotion := Get(detected, emotion) + 1];
        }
        forall e
          ensures Get(detected, e) == Bumped(lex, before, token, j + 1, e)
        {
          if e != emotion {
            assert Get(detected, e) == Get(prev, e);
          }
        }
      }
      forall e
        ensures Get(detected, e) == Hits(lex, tokens[..i + 1], e)
      {
        assert Get(detected, e) == Bumped(lex, before, token, |Emotions|, e);
      }
    }
    assert tokens[..|tokens|] == tokens;
    CountTableUnique(lex, detected, tokens);
  }

  /** The emotion shares: nothing when no emotion was hit, otherwise the
      share of each emotion in the table, filled in one emotion at a time. */
  method ScoreEmotions(detected: map<Emotion, nat>) returns (emotionScores: map<Emotion, real>)
    ensures emotionScores == EmotionShares(detected)
  {
    emotionScores := map[];
    var totalEmotions := Total(detected);
    if totalEmotions > 0 {
      var pending := detected.Keys;
      while pending != {}
        invariant pending <= detected.Keys
        invariant emotionScores.Keys == detected.Keys - pending
        invariant forall e :: e in emotionScores ==> emotionScores[e] == Share(detected[e], totalEmotions)
        decreases |pending|
      {
        var emotion :| emotion in pending;
        emotionScores := emotionScores[emotion := Share(detected[emotion], totalEmotions)];
        pending := pending - {emotion};
      }
    }
    ShareTableUnique(detected, emotionScores);
  }

  /** The emotion table part-way through the loop over the emotions for one
      token: emotions before position `j` have been bumped when the token is
      one of their words. */
  function Bumped(lex: Lexicons, before: map<Emotion, nat>, token: string, j: nat, e: Emotion): nat
  {
    Get(before, e) + (if Position(e) < j && token in lex.emotionWords(e) then 1 else 0)
  }

  /** Counting one more token adds one hit to each emotion it is a word of. */
  lemma HitsStep(lex: Lexicons, tokens: seq<string>, i: nat)
    requires i < |tokens|
    ensures forall e ::
      Hits(lex, tokens[..i + 1], e) == Hits(lex, tokens[..i], e) + (if tokens[i] in lex.emotionWords(e) then 1 else 0)
  {
    forall e
      ensures Hits(lex, tokens[..i + 1], e) ==
        Hits(lex, tokens[..i], e) + (if tokens[i] in lex.emotionWords(e) then 1 else 0)
    {
      CountStep(tokens, i, Evokes(lex, e));
    }
  }

  /** An emotion table holding exactly the nonzero hit counts is the one
      `EmotionCounts` describes. */
  lemma CountTableUnique(lex: Lexicons, m: map<Emotion, nat>, tokens: seq<string>)
    requires IsCountTable(lex, m, tokens)
    ensures m == EmotionCounts(lex, tokens)
  {
    var c := EmotionCounts(lex, tokens);
    forall e
      ensures e in m <==> e in c
      ensures e in m ==> m[e] == c[e]
    {
      assert Get(m, e) == Get(c, e);
    }
  }

  /** A table of one share per counted emotion is the one `EmotionShares`
      describes. */
  lemma ShareTableUnique(m: map<Emotion, nat>, s: map<Emotion, real>)
    requires s.Keys == if Total(m) == 0 then {} else m.Keys
    requires forall e :: e in s ==> Total(m) > 0 && s[e] == Share(m[e], Total(m))
    ensures s == EmotionShares(m)
  {
  }

  /** Every emotion is in the iteration order. */
  lemma AllListed()
    ensures forall e: Emotion :: e in Emotions
  {
    forall e: Emotion
      ensures e in Emotions
    {
      var k := Position(e);
    }
  }
}
