/** The dictionary `analyze_text` returns, shared by the three programs. The windowed program
    keeps the first ten words, the morpheme-based script the first ten morphemes, and the plain
    script neither; `sample` holds that list when there is one. */
module Analysis {
  import opened Wrappers
  import opened Lexicon
  import opened Classifier
  import opened Pattern
  import opened Sentiment

  datatype Analysis = Analysis(
    score: real,
    sentimentLabel: Label,
    positiveWords: seq<Hit>,
    negativeWords: seq<Hit>,
    neutralCount: nat,
    totalSentimentWords: nat,
    adStyles: seq<Scored>,
    industries: seq<Scored>,
    keywords: seq<Hit>,
    languagePattern: LanguagePattern,
    sentimentConflict: ConflictInfo,
    sample: Option<seq<string>>)

  /** The sentiment fields of `a` are those of the tokens `tokens`. */
  ghost predicate SentimentOf(a: Analysis, tokens: seq<string>, lex: Lexicon)
  {
    && a.positiveWords == PositiveHits(tokens, lex)
    && a.negativeWords == NegativeHits(tokens, lex)
    && a.neutralCount == NeutralCount(tokens, lex)
    && a.totalSentimentWords == |Scores(tokens, lex)|
    && a.score == Mean(Scores(tokens, lex))
    && a.sentimentConflict == DetectSentimentConflict(a.positiveWords, a.negativeWords)
    && a.sentimentLabel == SentimentLabel(a.sentimentConflict, a.score)
  }

  /** What the sentiment fields of every analysis satisfy: the counts add up, the listed words
      are tokens with their lexicon polarity and sign, the label is mixed exactly when both
      lists are non-empty, and otherwise it follows the mean. */
  lemma SentimentFacts(a: Analysis, tokens: seq<string>, lex: Lexicon)
    requires SentimentOf(a, tokens, lex)
    ensures |a.positiveWords| + |a.negativeWords| + a.neutralCount == a.totalSentimentWords
    ensures forall h :: h in a.positiveWords ==> h.0 in tokens && h.0 in lex && h.1 == lex[h.0] && h.1 >= 1
    ensures forall h :: h in a.negativeWords ==> h.0 in tokens && h.0 in lex && h.1 == lex[h.0] && h.1 <= -1
    ensures a.sentimentLabel.IsMixed() <==> a.positiveWords != [] && a.negativeWords != []
    ensures a.totalSentimentWords == 0 ==> a.score == 0.0 && a.sentimentLabel == Neutral
    ensures !a.sentimentLabel.IsMixed() ==> (a.sentimentLabel == VeryPositive <==> a.score >= 1.5)
  {
    CountsAddUp(tokens, lex);
    HitsFromLexicon(tokens, lex);
    if a.totalSentimentWords == 0 {
      NoHitsIsNeutral(tokens, lex);
    }
  }
}
