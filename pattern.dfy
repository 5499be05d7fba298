/** `analyze_language_pattern`: a summary of the surface form of a text. */
module Pattern {
  import opened Text

  datatype LanguagePattern = LanguagePattern(
    length: nat,
    wordCount: nat,
    hasQuestion: bool,
    hasExclamation: bool,
    hasEmoji: bool,
    sentenceCount: nat)

  /** Some character of the text matches the emoji pattern. */
  predicate HasEmoji(text: string)
  {
    text != [] && (IsEmojiChar(text[0]) || HasEmoji(text[1..]))
  }

  lemma {:induction false} HasEmojiExactly(text: string)
    ensures HasEmoji(text) <==> exists i :: 0 <= i < |text| && IsEmojiChar(text[i])
  {
    if text != [] {
      HasEmojiExactly(text[1..]);
      if exists i :: 0 <= i < |text| && IsEmojiChar(text[i]) {
        var i :| 0 <= i < |text| && IsEmojiChar(text[i]);
        if i > 0 {
          assert IsEmojiChar(text[1..][i - 1]);
        }
      }
      if exists i :: 0 <= i < |text[1..]| && IsEmojiChar(text[1..][i]) {
        var i :| 0 <= i < |text[1..]| && IsEmojiChar(text[1..][i]);
        assert IsEmojiChar(text[i + 1]);
      }
    }
  }

  /** `analyze_language_pattern(text)`: the length in code points, the number of Hangul runs,
      whether `?` and `!` occur, whether an emoji-pattern character occurs, and the number of
      pieces the stripped text splits into at `.`, `!` and `?`, which is one more than the number of
      sentence marks. */
  function AnalyzeLanguagePattern(text: string): (p: LanguagePattern)
    ensures p.length == |text|
    ensures p.wordCount == RunStarts(text, Gap, false)
    ensures p.hasQuestion <==> exists i :: 0 <= i < |text| && text[i] == '?'
    ensures p.hasExclamation <==> exists i :: 0 <= i < |text| && text[i] == '!'
    ensures p.hasEmoji <==> exists i :: 0 <= i < |text| && IsEmojiChar(text[i])
    ensures p.sentenceCount == SentenceMarks(text) + 1
  {
    RunsCount(text, false);
    HasEmojiExactly(text);
    StripKeepsSentenceMarks(text);
    LanguagePattern(
      |text|,
      |HangulWords(text)|,
      '?' in text,
      '!' in text,
      HasEmoji(text),
      |SplitSentences(Strip(text))|)
  }
}
