/** `AdvancedSentimentAnalyzer` of the morpheme-based script. The morphemes come from a
    morphological analyser that is not part of this model, so they are an input here: they
    stand in for the words in the sentiment tally and the keyword selection, they count as
    exact matches in both classifiers, and the first ten are kept. */
module MorphemeAnalyzer {
  import opened Wrappers
  import opened Lexicon
  import opened Ordering
  import opened Classifier
  import opened Tables
  import opened Keywords
  import opened Pattern
  import opened Sentiment
  import opened Analysis

  /** `analyze_text(text)`, with the lexicon the analyser loaded and the morphemes
      `extract_morphemes(text)` returned. */
  method AnalyzeText(lex: Lexicon, text: string, morphemes: seq<string>) returns (r: Option<Analysis>)
    ensures r.None? <==> lex == map[]
    ensures r.Some? ==>
      var a := r.value;
      && SentimentOf(a, morphemes, lex)
      && RankedFrom(a.adStyles, MorphemeScores(text, morphemes, StyleTable))
      && RankedFrom(a.industries, MorphemeScores(text, morphemes, IndustryTable))
      && KeywordSelection(a.keywords, morphemes, lex, 5)
      && a.languagePattern == AnalyzeLanguagePattern(text)
      && a.sample == Some(Take(morphemes, 10))
  {
    if lex == map[] {
      return None;
    }
    var t := TallySentiment(morphemes, lex);
    var score := Mean(t.scores);
    var conflict := DetectSentimentConflict(t.positiveWords, t.negativeWords);
    var sentimentLabel := SentimentLabel(conflict, score);
    TablesHaveDistinctNames();
    var adStyles := ClassifyWithMorphemes(text, morphemes, StyleTable);
    var industries := ClassifyWithMorphemes(text, morphemes, IndustryTable);
    var keywords := ExtractKeywords(morphemes, lex, 5);
    r := Some(Analysis(
      score, sentimentLabel, t.positiveWords, t.negativeWords, t.neutralCount, |t.scores|,
      adStyles, industries, keywords, AnalyzeLanguagePattern(text), conflict, Some(Take(morphemes, 10))));
  }
}
