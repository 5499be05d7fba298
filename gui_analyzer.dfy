/** `AdvancedSentimentAnalyzer.analyze_text` of the windowed program: the words are the Hangul
    and ASCII-letter runs of the text, both classifiers match keywords as substrings, the
    keywords come from the words, and the first ten words are kept. */
module GuiAnalyzer {
  import opened Wrappers
  import opened Lexicon
  import opened Ordering
  import opened Text
  import opened Classifier
  import opened Tables
  import opened Keywords
  import opened Pattern
  import opened Sentiment
  import opened Analysis

  /** `analyze_text(text)`, with the lexicon the analyser loaded. */
  method AnalyzeText(lex: Lexicon, text: string) returns (r: Option<Analysis>)
    ensures r.None? <==> lex == map[]
    ensures r.Some? ==>
      var a := r.value;
      var words := ExtractWords(text);
      && SentimentOf(a, words, lex)
      && RankedFrom(a.adStyles, SubstringScores(text, StyleTable))
      && RankedFrom(a.industries, SubstringScores(text, IndustryTable))
      && KeywordSelection(a.keywords, words, lex, 5)
      && a.languagePattern == AnalyzeLanguagePattern(text)
      && a.sample == Some(Take(words, 10))
  {
    if lex == map[] {
      return None;
    }
    var words := ExtractWords(text);
    var t := TallySentiment(words, lex);
    var score := Mean(t.scores);
    var conflict := DetectSentimentConflict(t.positiveWords, t.negativeWords);
    var sentimentLabel := SentimentLabel(conflict, score);
    TablesHaveDistinctNames();
    var adStyles := ClassifyBySubstring(text, StyleTable);
    var industries := ClassifyBySubstring(text, IndustryTable);
    var keywords := ExtractKeywords(words, lex, 5);
    r := Some(Analysis(
      score, sentimentLabel, t.positiveWords, t.negativeWords, t.neutralCount, |t.scores|,
      adStyles, industries, keywords, AnalyzeLanguagePattern(text), conflict, Some(Take(words, 10))));
  }
}
