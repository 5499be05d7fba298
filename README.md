# Ad-copy sentiment analyser: a Dafny model

This project models the analyser class `AdvancedSentimentAnalyzer` of an ad-preference tool. It appears in three programs:

- the windowed program, `gui_version/main_gui.py`;
- the plain console script, `script/main1.py`;
- the console script that uses morphological analysis, `script/main2.py`.

It also models the selection step of the windowed program's copy recommender.

The analyser works on three inputs: a sentiment lexicon that maps each word to an integer polarity, the text of an ad, and two fixed ordered keyword tables (ad style and industry). From them it computes:

- the lexicon hits of the words, split into positive (polarity at least 1), negative (at most -1) and neutral (0);
- their mean score;
- a conflict verdict, for when both positive and negative words occur;
- a label out of nine;
- the style and industry categories the text matches, ranked by the number of keywords found;
- the strongest sentiment keywords;
- a summary of the text's surface form.

The model is written as follows:

- The lexicon is a `map<string, int>`.
- Each keyword table is a sequence of (category, keywords) pairs, so dictionary order is kept.
- A Python dictionary that the code fills in a loop is an insertion-ordered sequence of items. Assignment is `Ordering.Put`.
- Python's `sorted(..., reverse=True)` is `Ordering.SortDesc`, a stable descending insertion sort. Its stability is proved (`Ordering.SortDescStable`).
- The mean is an exact `real`.
- The loops of the source (the sentiment tally, the dictionary fills, the nested keyword count of the morpheme classifier, the recommendation builder) are methods with loop invariants. Each is proved against a specification function or predicate.
- The expression-only parts are functions with lemmas. These are the tokeniser, the conflict detector, the label, the language pattern and the recommender's filters.

Module layout:

- `Wrappers` holds `Option`.
- `Ordering` holds the list and dictionary primitives.
- `Text` holds the tokeniser regexes, `strip`, sentence splitting, the emoji class and substring search.
- `Lexicon`, `Classifier`, `Tables`, `Keywords`, `Sentiment`, `Pattern` and `Analysis` cover the analyser's parts.
- One module per program: `GuiAnalyzer`, `ScriptAnalyzer`, `MorphemeAnalyzer`. Each holds the `analyze_text` of that program.
- `Recommender` holds the recommendation step.

The copies differ in these ways, and the model keeps each difference:

- The windowed program and the morpheme script spell the seventh keyword of 실용형 as 알뜸. The plain script spells it 알뜰 (`Tables.StyleTablesDiffer`).
- The plain script's `extract_keywords` re-tokenises the text into Hangul-only runs (`ScriptAnalyzer.ExtractKeywordsFromText`). The windowed program's version takes the word list.
- The morpheme script scores a keyword once, either as a substring of the text or as an exact morpheme (`Classifier.ClassifyWithMorphemes`). Its sentiment tally and its keywords run over the morphemes.
- Only the windowed program and the morpheme script keep a ten-element sample of their tokens.

The classifiers of the windowed program and of the plain script are the same code (`script/main1.py:63-87` repeats `gui_version/main_gui.py:94-118`). So is `detect_sentiment_conflict`, in all three programs (`script/main1.py:115-143`, `script/main2.py:160-188`). The label derivation is shared too (`script/main1.py:188-211`, `script/main2.py:223-246`). Each of these is modelled once, and the rows below cite the windowed program.

Three choices of representation follow the code:

- The labels and conflict types are the Korean strings of the code.
- The strengths are integer sums.
- The comparison "more than 1.5 times" is made exactly, on reals.

## Model

| member | source | states |
|---|---|---|
| `Text.RunsShape` | gui_version/main_gui.py:90-92 | Every token of `extract_words` is non-empty and made only of Hangul syllables (U+AC00–U+D7A3) or only of ASCII letters. For the Hangul-only pattern, every token is made only of Hangul syllables. |
| `Text.RunsCover` | gui_version/main_gui.py:90-92 | Joined in order, the tokens are exactly the text with every non-word character removed. No word character is lost, added or reordered. |
| `Text.RunsCount` | gui_version/main_gui.py:90-92 | There is one token per place where a character of a word class follows the start of the text or a character of another class. |
| `Text.RunsMaximal` | gui_version/main_gui.py:92 | The tokens are exactly the maximal runs, in order. The k-th token is `text[a_k:b_k]`. The runs are increasing, and each is non-empty and of one class. The character before `a_k` and the character at `b_k` are of another class, or the run touches the edge of the text. Only non-word characters lie before, between and after the runs. |
| `Text.ExtractWords` | gui_version/main_gui.py:92 | Also script/main1.py:163. Every word is non-empty and all Hangul or all ASCII letters. Joined, the words are the text's word characters. The words are the maximal runs, as in `RunsMaximal`. |
| `Text.HangulWords` | script/main1.py:91 | Also gui_version/main_gui.py:138. Every token is non-empty and all Hangul. Joined, the tokens are the text's Hangul syllables. The tokens are the maximal Hangul runs, as in `RunsMaximal`. |
| `Text.ContainsAt` | gui_version/main_gui.py:99 | Also script/main2.py:103. `keyword in text` holds exactly when the keyword occurs in the text at some position `i`, that is, when `text[i:i+len(keyword)] == keyword`. |
| `Text.Strip` | gui_version/main_gui.py:142 | `strip()` returns a contiguous part of the text. Only whitespace lies before and after it, and it neither begins nor ends with whitespace. |
| `Text.SplitSentences` | gui_version/main_gui.py:142 | Splitting at `.`, `!` and `?` gives one more piece than there are marks, and no piece contains a mark. |
| `Text.StripKeepsSentenceMarks` | gui_version/main_gui.py:142 | `strip()` removes only whitespace, so it keeps the number of sentence marks. |
| `Ordering.SortDesc` | gui_version/main_gui.py:104 | The sort returns a permutation of its input, in non-increasing key order. |
| `Ordering.SortDescStable` | gui_version/main_gui.py:104 | The sort is stable: the elements of each key keep their input order. |
| `Ordering.SortDescFacts` | gui_version/main_gui.py:131 | The sort keeps the length and the elements. If an index increases along the input, it increases along every pair of equal-key elements of the output. |
| `Ordering.Take` | gui_version/main_gui.py:132 | `xs[:n]` has length min(n, len(xs)) and is a prefix of `xs`. |
| `Ordering.PutNew` | gui_version/main_gui.py:128 | Assigning a new key appends the item at the end. |
| `Ordering.PutReplaces` | gui_version/main_gui.py:128 | Assigning a key that is present replaces the value of its first item, at its place. Every other item is unchanged. |
| `Ordering.PutSame` | gui_version/main_gui.py:128 | Assigning a key the value it already has leaves the dictionary unchanged. |
| `Ordering.IndexOfFirst` | gui_version/main_gui.py:124-128 | An element that does not occur earlier stands at its first position. |
| `Classifier.SubstringScore` | gui_version/main_gui.py:99 | A category scores at most its number of keywords. It scores 0 exactly when no keyword occurs in the text, and full marks exactly when every keyword occurs. |
| `Classifier.MorphemeScore` | script/main2.py:99-107 | The morpheme-aware score is at most the number of keywords. It is 0 exactly when no keyword is a substring of the text or a morpheme, and full exactly when every keyword is one or the other. |
| `Classifier.CountMorphemeMatches` | script/main2.py:100-107 | The inner loop over the keywords computes `MorphemeScore`. |
| `Classifier.Rank` | gui_version/main_gui.py:104-105 | With no positive score the result is `[('기타', 0)]`. Otherwise it is a permutation of the positive scores, highest first. |
| `Classifier.MorphemeScoreBounds` | script/main2.py:99-107 | With the `elif`, each keyword adds at most 1. The score lies between the plain substring score and the number of keywords, and equals the substring score when there are no morphemes. |
| `Classifier.RankFacts` | gui_version/main_gui.py:103-105 | The ranked positive scores satisfy `RankedFrom`. |
| `Classifier.ClassifyBySubstring` | gui_version/main_gui.py:94-118 | `classify_ad_style` and `classify_industry`, also at script/main1.py:63-87. The sentinel `[('기타', 0)]` is returned exactly when no category scores. Otherwise the result is exactly the scoring categories with their scores, every score positive, in non-increasing order, with equal scores in table order. |
| `Classifier.ClassifyWithMorphemes` | script/main2.py:94-133 | The same guarantees for the morpheme-aware scores of both tables. Its inner loop is `CountMorphemeMatches`. |
| `Tables.TablesHaveDistinctNames` | gui_version/main_gui.py:43-67 | The style table has 11 categories and the industry table 8. Their names are distinct, as the keys of a dictionary literal are. |
| `Tables.StyleTablesDiffer` | script/main1.py:16-28 | The two style tables have the same categories in the same order. They differ only in the seventh keyword of 실용형: 알뜸 versus 알뜰. |
| `Keywords.CollectStep` | gui_version/main_gui.py:124-128 | One pass of the loop keeps `Collected`. The dictionary holds exactly the qualifying words seen so far, each with its polarity, in order of first occurrence. |
| `Keywords.SelectionFacts` | gui_version/main_gui.py:130-132 | Sorting the collected items by absolute polarity and cutting the list to `top_n` meets `KeywordSelection`. |
| `Keywords.ExtractKeywords` | gui_version/main_gui.py:120-132 | Also script/main2.py:135-147. The result has at most `top_n` entries. Each entry is a listed word that is in the lexicon, has at least 2 characters and has absolute polarity at least 1, paired with its polarity. The words are distinct and in non-increasing absolute polarity, with ties in order of first occurrence. A qualifying word is missing only when the list is full of words that come before it in that order. |
| `ScriptAnalyzer.ExtractKeywordsFromText` | script/main1.py:89-102 | The same selection over the Hangul-only runs of the text. Every keyword is all Hangul, so no ASCII word is ever chosen. |
| `Sentiment.TallySentiment` | gui_version/main_gui.py:185-200 | The accumulator loop computes `scores`, `positive_words` and `negative_words` (in token order) and `neutral_count`, as the filter functions define them. |
| `Sentiment.CountsAddUp` | gui_version/main_gui.py:190-200 | The positive, negative and neutral counts add up to the number of lexicon hits. |
| `Sentiment.HitsFromLexicon` | gui_version/main_gui.py:191-198 | Every positive word is a token of the text with its lexicon polarity, and that polarity is at least 1. Every negative word is the same, with polarity at most -1. |
| `Sentiment.Mean` | gui_version/main_gui.py:203 | `avg_score` is 0 for no hits. Otherwise, times the number of hits, it gives back their sum. |
| `Sentiment.MeanBetween` | gui_version/main_gui.py:203 | The mean lies between any lower and upper bound of the polarities. |
| `Sentiment.MeanOfPositives` | gui_version/main_gui.py:203 | The mean of polarities that are all at least 1 is itself at least 1. |
| `Sentiment.DetectSentimentConflict` | gui_version/main_gui.py:145-173 | There is a conflict exactly when both lists are non-empty, and the type is absent exactly then. The strengths are the sums of the absolute polarities. |
| `Sentiment.ConflictNamesDistinct` | gui_version/main_gui.py:158-166 | The four conflict-type strings 강한혼합, 긍정우세혼합, 부정우세혼합 and 균형혼합 are pairwise different. |
| `Sentiment.ConflictCases` | gui_version/main_gui.py:157-166 | The type is strong-mixed exactly when both counts are at least 2. Otherwise it is positive-dominant when 2·pos > 3·neg, then negative-dominant when 2·neg > 3·pos, else balanced. |
| `Sentiment.ConflictMirror` | gui_version/main_gui.py:154-166 | Swapping the two lists swaps the strengths and the two dominant types, and keeps the conflict flag, strong-mixed and balanced. |
| `Sentiment.StrengthAtLeastCount` | gui_version/main_gui.py:151-152 | A list of words of absolute polarity at least 1 has a strength of at least its length. |
| `Sentiment.DominantIsStronger` | gui_version/main_gui.py:159-164 | A dominant side is strictly stronger than the other, the other has strength at least 1, and one of the two sides is a single word. |
| `Sentiment.SentimentLabel` | gui_version/main_gui.py:209-231 | The label is one of the four mixed labels exactly when there is a conflict. |
| `Sentiment.LabelIntervals` | gui_version/main_gui.py:220-231 | Without a conflict the label is fixed by the interval of the unrounded mean: [1.5, ∞) very positive, [0.5, 1.5) positive, (-0.5, 0.5) neutral, (-1.5, -0.5] negative, (-∞, -1.5] very negative. |
| `Sentiment.LabelMonotone` | gui_version/main_gui.py:220-231 | Without a conflict, a higher mean never gives a more negative label. |
| `Sentiment.LabelOfConflict` | gui_version/main_gui.py:209-219 | With a conflict, each type gives its own mixed label: 혼합(양립), 혼합(긍정우세), 혼합(부정우세) or 혼합(균형). |
| `Sentiment.LabelTextsDistinct` | gui_version/main_gui.py:212-231 | The nine label strings are pairwise different. |
| `Sentiment.NoHitsIsNeutral` | gui_version/main_gui.py:203 | With no lexicon hit, both word lists are empty, the neutral count and the score are 0, there is no conflict, and the label is 중립. |
| `Sentiment.AllPositiveReadsPositive` | gui_version/main_gui.py:190-225 | A text whose hits are all positive gets the label 긍정 or 매우 긍정. |
| `Sentiment.ConflictMonotone` | gui_version/main_gui.py:154 | Adding one negative word to a non-empty positive list turns a single label into a mixed one. |
| `Sentiment.WorkedExample` | gui_version/main_gui.py:175-231 | For the lexicon {행복: 2, 눈물: -1} and the tokens [행복, 눈물]: the score is 0.5, the strengths are 2 and 1, the type is positive-dominant, and the label is 혼합(긍정우세). |
| `Pattern.HasEmojiExactly` | gui_version/main_gui.py:141 | The emoji search succeeds exactly when some character is ㅋ, ㅎ or in U+1F600–U+1F64F. |
| `Pattern.AnalyzeLanguagePattern` | gui_version/main_gui.py:134-143 | Also script/main1.py:104-113 and script/main2.py:149-158. The summary holds the length in code points; the number of Hangul runs; whether `?` occurs; whether `!` occurs; whether an emoji character occurs; and a sentence count equal to the number of `.`, `!` and `?` plus 1. |
| `Analysis.SentimentFacts` | gui_version/main_gui.py:233-244 | In every analysis, the counts add up to `total_sentiment_words`. The listed words are tokens with their polarity and sign. The label is mixed exactly when both lists are non-empty. No hits means score 0 and 중립. |
| `GuiAnalyzer.AnalyzeText` | gui_version/main_gui.py:175-246 | The result is `None` exactly when the lexicon is empty. Otherwise the sentiment fields are those of the `extract_words` tokens. Both classifications use the substring classifier, and keywords are the top 5 of the tokens. The result also holds the language pattern and the first 10 tokens. |
| `ScriptAnalyzer.AnalyzeText` | script/main1.py:145-225 | The same, with the 알뜰 style table. The keywords are the top 5 of the Hangul-only runs, and no sample is kept. |
| `MorphemeAnalyzer.AnalyzeText` | script/main2.py:190-261 | The same, with the tally and the keywords over the given morphemes and the morpheme-aware classifiers. The result keeps the first 10 morphemes. |
| `Recommender.ValidIndices` | gui_version/main_gui.py:805 | Every valid position is a position of the similarity list, of similarity at least 0.1, and the positions increase. |
| `Recommender.ValidIndicesFacts` | gui_version/main_gui.py:805 | The valid positions are exactly those of similarity at least 0.1, in increasing order. |
| `Recommender.SortedIndices` | gui_version/main_gui.py:811 | After sorting, the positions are still exactly the valid ones. |
| `Recommender.SortedIndicesOrder` | gui_version/main_gui.py:811 | The sorted positions are distinct and in non-increasing similarity, with equal similarities in database order. |
| `Recommender.TopIndices` | gui_version/main_gui.py:811 | `top_indices` has at most `top_n` entries, and each is a position of similarity at least 0.1. |
| `Recommender.TopIndicesFacts` | gui_version/main_gui.py:805-811 | `top_indices` has at most `top_n` distinct valid positions, most similar first, with ties in database order. A valid position is missing only when the list is full of positions ahead of it. |
| `Recommender.HighRatedAds` | gui_version/main_gui.py:777 | Every kept ad is one of the rated ads and is rated 7 or more. |
| `Recommender.Reason` | gui_version/main_gui.py:818 | The reason is the copy's category followed by ` 스타일`, or `기타 스타일` when the copy has no category. |
| `Recommender.HighRatedAdsComplete` | gui_version/main_gui.py:777 | Every ad rated 7 or more is kept, and only such ads are kept. |
| `Recommender.BuildRecommendations` | gui_version/main_gui.py:814-819 | The loop builds one (copy, similarity, reason) triple per chosen position, in order. |
| `Recommender.BuiltIsWellRanked` | gui_version/main_gui.py:805-819 | The built recommendations number at most `top_n`. Each is at least 0.1 similar, the most similar comes first, and each reason is the copy's category (default 기타) followed by " 스타일". |
| `Recommender.NoValidNoTop` | gui_version/main_gui.py:807-808 | With no valid position, nothing is recommended. |
| `Recommender.RecommendPersonalizedCopies` | gui_version/main_gui.py:768-825 | The result is `[]` when the database is empty, when there are fewer than 3 rated ads, when no ad is rated 7 or more, or when the similarity computation fails. Otherwise it is exactly the triples for `top_indices`. It is always well ranked. |
| `Recommender.TooFewRatings` | gui_version/main_gui.py:773-774 | With fewer than three rated ads, the gates never open. |

## Left out

- The Tkinter windows, the Rich console menus, printing and status spinners are user interface.
- Loading the lexicon and the data files from JSON, and the path search for the lexicon, are file I/O. The lexicon is a parameter. An empty map stands for a missing or unreadable file.
- Timestamps are clock reads, and are not modelled.
- `extract_morphemes` calls the Kiwi morphological analyser, a foreign library. Its output is an input of `MorphemeAnalyzer.AnalyzeText`.
- The TF-IDF vectoriser, the numpy mean of the liked vectors and the cosine similarity are foreign numeric code. The similarity vector is an input of `Recommender.RecommendPersonalizedCopies`. An exception anywhere in that computation is the input `None`. The bound of each similarity to [0, 1] depends on that code, so it is not modelled.
- GuiAnalyzer.AnalyzeText: stores the exact mean as `score`, not `round(avg_score, 2)`, because float rounding is not modelled. The label is computed from the unrounded mean in both.
- ScriptAnalyzer.AnalyzeText: stores the exact mean, for the same reason.
- MorphemeAnalyzer.AnalyzeText: stores the exact mean, for the same reason.
- The preference reports (`show_sentiment_preference`, `show_style_preference`, `show_language_preference`, `show_advanced_insights`, `analyze_sentiment_score_correlation`) are float averages mixed with display.
- `find_similar` and the rest of the preference workflow are not part of this model.
- `top_n` is a natural number. A negative `top_n` would slice from the end in Python; the programs only use the defaults 5 and 10.
- A database entry whose `category` key is present but holds `None` would give the reason "None 스타일". The model knows only a present string or an absent key.
- Fields of rated ads and copies that the modelled code does not read are left out. These are the stored analysis and the timestamp.
- Floating-point similarities are modelled as exact reals.
