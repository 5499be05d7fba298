/** `AdvancedSentimentAnalyzer` of the plain script: as in the windowed program, except that its
    style table spells 알뜰, its `extract_keywords` takes the text and looks only at its Hangul
    runs, and `analyze_text` keeps no sample of the words. */
module ScriptAnalyzer {
  import opened Wrappers
  import opened Lexicon
  import opened Text
  import opened Classifier
  import opened Tables
  import opened Keywords
  import opened Pattern
  import opened Sentiment
  import opened Analysis

  /** `extract_keywords(text, top_n)`: the selection runs over the Hangul runs of the text, so
      no ASCII word is ever a keyword. */
  method ExtractKeywordsFromText(text: string, lex: Lexicon, topN: nat) returns (r: seq<Hit>)
    ensures KeywordSelection(r, HangulWords(text), lex, topN)
    ensures forall i :: 0 <= i < |r| ==> AllHangul(r[i].0)
  {
    var words := HangulWords(text);
    r := ExtractKeywords(words, lex, topN);
    RunsShape(text, false);
  }

  /** `analyze_text(text)`, with the lexicon the analyser loaded. */
  method AnalyzeText(lex: Lexicon, text: string) returns (r: Option<Analysis>)
    ensures r.None? <==> lex == map[]
    ensures r.Some? ==>
      var a := r.value;
      var words := ExtractWords(text);
      && SentimentOf(a, words, lex)
      && RankedFrom(a.adStyles, SubstringScores(text, PlainStyleTable))
      && RankedFrom(a.industries, SubstringScores(text, IndustryTable))
      && KeywordSelection(a.keywords, HangulWords(text), lex, 5)
      && a.languagePattern == AnalyzeLanguagePattern(text)
      && a.sample == None
  {
    if lex == map[] {
      return None;
    }
    var words := ExtractWords(text);
    var t := TallySentiment(words, lex);
    var score := Mean(t.scores);
    var conflict := DetectSentimentConflict(t.positiveWords, t.negativeWords);
    var sentimentLabel := SentimentLabel(conflict, score);
    TablesHaveDistinctNames();
    var adStyles := ClassifyBySubstring(text, PlainStyleTable);
    var industries := ClassifyBySubstring(text, IndustryTable);
    var keywords := ExtractKeywordsFromText(text, lex, 5);
    r := Some(Analysis(
      score, sentimentLabel, t.positiveWords, t.negativeWords, t.neutralCount, |t.scores|,
      adStyles, industries, keywords, AnalyzeLanguagePattern(text), conflict, None));
  }
}
