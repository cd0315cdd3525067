/** The fixed word lists the pipeline looks tokens up in. They are built once
    and never change; a Python `in` test on one of the lists is set
    membership here. */
module Lexicon {

  /** Words that count towards a positive polarity. */
  const PositiveWords: set<string> := {
    "good", "great", "excellent", "amazing", "wonderful", "fantastic",
    "love", "loved", "best", "awesome", "perfect", "beautiful", "happy",
    "excited", "joy", "brilliant", "outstanding", "superb", "pleased",
    "delighted", "satisfied", "impressive", "remarkable", "incredible",
    "exceptional", "magnificent", "terrific", "fabulous", "marvelous",
    "splendid", "enjoy", "enjoyed", "positive", "recommendation"
  }

  /** Words that count towards a negative polarity. */
  const NegativeWords: set<string> := {
    "bad", "terrible", "awful", "horrible", "worst", "hate", "hated",
    "poor", "disappointing", "disappointed", "sad", "angry", "frustrated",
    "annoyed", "upset", "pathetic", "useless", "waste", "disgusting",
    "appalling", "dreadful", "inferior", "substandard", "defective",
    "faulty", "broken", "damaged", "failed", "failure", "regret", "unhappy",
    "negative", "dissatisfied"
  }

  /** The five basic emotions the scorer detects. */
  datatype Emotion = Joy | Sadness | Anger | Fear | Surprise

  /** The emotions in the order the emotion table lists them, which is the
      order the scorer visits them for every token. */
  const Emotions: seq<Emotion> := [Joy, Sadness, Anger, Fear, Surprise]

  /** The emotion table: the words associated with each emotion. */
  function EmotionWords(e: Emotion): set<string>
  {
    match e
    case Joy => {
      "happy", "joy", "excited", "delighted", "cheerful", "pleased",
      "glad", "enjoy", "wonderful", "fantastic", "amazing"
    }
    case Sadness => {
      "sad", "unhappy", "disappointed", "depressed", "miserable",
      "gloomy", "sorrow", "grief", "heartbroken"
    }
    case Anger => {
      "angry", "mad", "furious", "annoyed", "irritated", "frustrated",
      "hate", "rage", "outraged", "hostile"
    }
    case Fear => {
      "afraid", "scared", "worried", "anxious", "nervous", "terrified",
      "fearful", "panic", "dread"
    }
    case Surprise => {
      "surprised", "amazed", "shocked", "astonished", "unexpected",
      "stunning", "wow", "incredible"
    }
  }

  /** Words dropped by the preprocessor whatever their length. */
  const Stopwords: set<string> := {
    "the", "is", "at", "which", "on", "a", "an", "as", "are", "was", "were",
    "been", "be", "have", "has", "had", "do", "does", "did", "will", "would",
    "could", "should", "may", "might", "must", "can", "this", "that", "these",
    "those", "i", "you", "he", "she", "it", "we", "they", "them", "their",
    "what", "when", "where", "who", "why", "how", "all", "each", "every",
    "both", "few", "more", "most", "other", "some", "such", "no", "nor",
    "not", "only", "own", "same", "so", "than", "too", "very", "to", "of",
    "in", "for", "with", "by", "from"
  }

  /** The three word lists the scorer consults: the two polarity lexicons
      and the emotion table. */
  datatype Lexicons = Lexicons(
    positive: set<string>,
    negative: set<string>,
    emotionWords: Emotion -> set<string>)

  /** The lists the program is built with. */
  const Builtin: Lexicons := Lexicons(PositiveWords, NegativeWords, EmotionWords)

  /** Where an emotion stands in the iteration order. */
  function Position(e: Emotion): (k: nat)
    ensures k < |Emotions| && Emotions[k] == e
  {
    match e
    case Joy => 0
    case Sadness => 1
    case Anger => 2
    case Fear => 3
    case Surprise => 4
  }

  /** Every emotion appears in the iteration order exactly once. */
  lemma PositionOf(j: nat)
    requires j < |Emotions|
    ensures Position(Emotions[j]) == j
  {
  }
}
