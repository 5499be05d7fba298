/** The sentiment part of `analyze_text`: the lexicon hits of the tokens, their mean, the
    conflict detector `detect_sentiment_conflict` and the label derivation. */
module Sentiment {
  import opened Wrappers
  import opened Lexicon

  /** `scores`: the polarities of the tokens found in the lexicon, in token order. */
  function Scores(tokens: seq<string>, lex: Lexicon): seq<int>
  {
    if tokens == [] then []
    else
      var w := tokens[|tokens| - 1];
      Scores(tokens[..|tokens| - 1], lex) + (if w in lex then [lex[w]] else [])
  }

  /** `positive_words`: the hits of polarity at least 1, in token order. */
  function PositiveHits(tokens: seq<string>, lex: Lexicon): seq<Hit>
  {
    if tokens == [] then []
    else
      var w := tokens[|tokens| - 1];
      PositiveHits(tokens[..|tokens| - 1], lex) + (if w in lex && lex[w] >= 1 then [(w, lex[w])] else [])
  }

  /** `negative_words`: the hits of polarity at most -1, in token order. */
  function NegativeHits(tokens: seq<string>, lex: Lexicon): seq<Hit>
  {
    if tokens == [] then []
    else
      var w := tokens[|tokens| - 1];
      NegativeHits(tokens[..|tokens| - 1], lex) + (if w in lex && lex[w] <= -1 then [(w, lex[w])] else [])
  }

  /** `neutral_count`: the hits of polarity 0. */
  function NeutralCount(tokens: seq<string>, lex: Lexicon): nat
  {
    if tokens == [] then 0
    else
      var w := tokens[|tokens| - 1];
      NeutralCount(tokens[..|tokens| - 1], lex) + (if w in lex && lex[w] == 0 then 1 else 0)
  }

  function Sum(s: seq<int>): int
  {
    if s == [] then 0 else Sum(s[..|s| - 1]) + s[|s| - 1]
  }

  /** The arithmetic mean of the polarities, exactly, or 0 when there are none: times the
      number of polarities, it gives back their sum. */
  function Mean(s: seq<int>): (r: real)
    ensures s == [] ==> r == 0.0
    ensures s != [] ==> r * |s| as real == Sum(s) as real
  {
    if s == [] then 0.0 else Sum(s) as real / |s| as real
  }

  /** Every hit is positive, negative or neutral, so the three counts add up to
      `total_sentiment_words`. */
  lemma {:induction false} CountsAddUp(tokens: seq<string>, lex: Lexicon)
    ensures |PositiveHits(tokens, lex)| + |NegativeHits(tokens, lex)| + NeutralCount(tokens, lex)
      == |Scores(tokens, lex)|
  {
    if tokens != [] {
      CountsAddUp(tokens[..|tokens| - 1], lex);
    }
  }

  /** The listed hits are tokens of the text, with their lexicon polarity, of the right sign. */
  lemma {:induction false} HitsFromLexicon(tokens: seq<string>, lex: Lexicon)
    ensures forall h :: h in PositiveHits(tokens, lex) ==> h.0 in tokens && h.0 in lex && h.1 == lex[h.0] && h.1 >= 1
    ensures forall h :: h in NegativeHits(tokens, lex) ==> h.0 in tokens && h.0 in lex && h.1 == lex[h.0] && h.1 <= -1
  {
    if tokens != [] {
      var init := tokens[..|tokens| - 1];
      HitsFromLexicon(init, lex);
      assert forall w :: w in init ==> w in tokens;
    }
  }

  /** With no negative and no neutral hit, every matched polarity is at least 1. */
  lemma {:induction false} OnlyPositiveScores(tokens: seq<string>, lex: Lexicon)
    requires NegativeHits(tokens, lex) == [] && NeutralCount(tokens, lex) == 0
    ensures forall x :: x in Scores(tokens, lex) ==> x >= 1
  {
    if tokens != [] {
      var init := tokens[..|tokens| - 1];
      assert |NegativeHits(init, lex)| <= |NegativeHits(tokens, lex)|;
      OnlyPositiveScores(init, lex);
    }
  }

  lemma {:induction false} SumAtLeastLength(s: seq<int>)
    requires forall x :: x in s ==> x >= 1
    ensures Sum(s) >= |s|
  {
    if s != [] {
      var init := s[..|s| - 1];
      forall x | x in init ensures x >= 1 {
        var k :| 0 <= k < |init| && init[k] == x;
        assert s[k] == x && s[k] in s;
      }
      SumAtLeastLength(init);
      assert s[|s| - 1] in s;
    }
  }

  /** Polarities between `lo` and `hi` sum to between `|s| * lo` and `|s| * hi`. */
  lemma {:induction false} SumBetween(s: seq<int>, lo: int, hi: int)
    requires forall k :: 0 <= k < |s| ==> lo <= s[k] <= hi
    ensures |s| * lo <= Sum(s) <= |s| * hi
  {
    if s != [] {
      var init := s[..|s| - 1];
      assert forall k :: 0 <= k < |init| ==> init[k] == s[k];
      SumBetween(init, lo, hi);
      assert |s| * lo == |init| * lo + lo;
      assert |s| * hi == |init| * hi + hi;
    }
  }

  /** The mean lies between any bounds of the polarities. */
  lemma MeanBetween(s: seq<int>, lo: int, hi: int)
    requires s != []
    requires forall k :: 0 <= k < |s| ==> lo <= s[k] <= hi
    ensures lo as real <= Mean(s) <= hi as real
  {
    SumBetween(s, lo, hi);
    MeanAtLeast(Mean(s), |s| as real, Sum(s) as real, lo as real);
    MeanAtMost(Mean(s), |s| as real, Sum(s) as real, hi as real);
  }

  lemma MeanAtLeast(m: real, n: real, sum: real, lo: real)
    requires n > 0.0 && m * n == sum && sum >= n * lo
    ensures lo <= m
  {
    assert (m - lo) * n == sum - n * lo;
    NonNegativeFactor(m - lo, n);
  }

  lemma MeanAtMost(m: real, n: real, sum: real, hi: real)
    requires n > 0.0 && m * n == sum && sum <= n * hi
    ensures m <= hi
  {
    assert (hi - m) * n == n * hi - sum;
    NonNegativeFactor(hi - m, n);
  }

  lemma NonNegativeFactor(x: real, n: real)
    requires n > 0.0 && x * n >= 0.0
    ensures x >= 0.0
  {
  }

  /** The mean of polarities that are all at least 1 is at least 1. */
  lemma MeanOfPositives(s: seq<int>)
    requires s != [] && forall x :: x in s ==> x >= 1
    ensures Mean(s) >= 1.0
  {
    SumAtLeastLength(s);
    var n := |s| as real;
    assert Sum(s) as real >= n;
    assert Mean(s) * n == Sum(s) as real;
  }

  datatype ConflictType = StrongMixed | PositiveDominant | NegativeDominant | Balanced
  {
    /** The name the analyser gives the type. */
    function Name(): string
    {
      match this
      case StrongMixed => "강한혼합"
      case PositiveDominant => "긍정우세혼합"
      case NegativeDominant => "부정우세혼합"
      case Balanced => "균형혼합"
    }
  }

  /** The four conflict types have four different names. */
  lemma ConflictNamesDistinct(a: ConflictType, b: ConflictType)
    requires a != b
    ensures a.Name() != b.Name()
  {
  }

  /** The dictionary `detect_sentiment_conflict` returns; `conflictType` is `None` without a conflict. */
  datatype ConflictInfo = ConflictInfo(
    hasConflict: bool,
    conflictType: Option<ConflictType>,
    positiveStrength: nat,
    negativeStrength: nat)

  /** The strength of a side: the sum of the absolute polarities of its words. */
  function Strength(hits: seq<Hit>): nat
  {
    if hits == [] then 0 else Strength(hits[..|hits| - 1]) + Abs(hits[|hits| - 1].1)
  }

  /** `detect_sentiment_conflict(positive_words, negative_words)`. */
  function DetectSentimentConflict(pos: seq<Hit>, neg: seq<Hit>): (c: ConflictInfo)
    ensures c.hasConflict <==> pos != [] && neg != []
    ensures c.conflictType.None? <==> !c.hasConflict
    ensures c.positiveStrength == Strength(pos) && c.negativeStrength == Strength(neg)
  {
    var posStrength := Strength(pos);
    var negStrength := Strength(neg);
    var hasConflict := |pos| >= 1 && |neg| >= 1;
    var conflictType :=
      if !hasConflict then None
      else if |pos| >= 2 && |neg| >= 2 then Some(StrongMixed)
      else if posStrength as real > negStrength as real * 1.5 then Some(PositiveDominant)
      else if negStrength as real > posStrength as real * 1.5 then Some(NegativeDominant)
      else Some(Balanced);
    ConflictInfo(hasConflict, conflictType, posStrength, negStrength)
  }

  /** The decision of the detector in integers: one side dominates when twice its strength
      exceeds three times the other's; a conflict of one word against several words is never
      strong-mixed. */
  lemma ConflictCases(pos: seq<Hit>, neg: seq<Hit>)
    requires pos != [] && neg != []
    ensures var c := DetectSentimentConflict(pos, neg);
      var p, n := Strength(pos), Strength(neg);
      var strong := |pos| >= 2 && |neg| >= 2;
      && (c.conflictType == Some(StrongMixed) <==> strong)
      && (c.conflictType == Some(PositiveDominant) <==> !strong && 2 * p > 3 * n)
      && (c.conflictType == Some(NegativeDominant) <==> !strong && 2 * p <= 3 * n && 2 * n > 3 * p)
      && (c.conflictType == Some(Balanced) <==> !strong && 2 * p <= 3 * n && 2 * n <= 3 * p)
  {
  }

  /** Swapping the two lists swaps the two dominant types and keeps the others. */
  lemma ConflictMirror(pos: seq<Hit>, neg: seq<Hit>)
    ensures var c, m := DetectSentimentConflict(pos, neg), DetectSentimentConflict(neg, pos);
      && m.hasConflict == c.hasConflict
      && m.positiveStrength == c.negativeStrength && m.negativeStrength == c.positiveStrength
      && (c.conflictType == Some(PositiveDominant) <==> m.conflictType == Some(NegativeDominant))
      && (c.conflictType == Some(NegativeDominant) <==> m.conflictType == Some(PositiveDominant))
      && (c.conflictType == Some(StrongMixed) <==> m.conflictType == Some(StrongMixed))
      && (c.conflictType == Some(Balanced) <==> m.conflictType == Some(Balanced))
  {
    if pos != [] && neg != [] {
      var p, n := Strength(pos), Strength(neg);
      // both sides cannot dominate at once
      assert !(p as real > n as real * 1.5 && n as real > p as real * 1.5);
    }
  }

  /** Each listed word weighs at least 1, so a side is at least as strong as it is long. */
  lemma {:induction false} StrengthAtLeastCount(hits: seq<Hit>)
    requires forall h :: h in hits ==> Abs(h.1) >= 1
    ensures Strength(hits) >= |hits|
  {
    if hits != [] {
      assert forall h :: h in hits[..|hits| - 1] ==> h in hits;
      StrengthAtLeastCount(hits[..|hits| - 1]);
    }
  }

  /** A dominant side is strictly the stronger one and faces a lone word or is one itself. */
  lemma DominantIsStronger(pos: seq<Hit>, neg: seq<Hit>)
    requires forall h :: h in pos ==> Abs(h.1) >= 1
    requires forall h :: h in neg ==> Abs(h.1) >= 1
    ensures var c := DetectSentimentConflict(pos, neg);
      && (c.conflictType == Some(PositiveDominant) ==> c.positiveStrength > c.negativeStrength >= 1 && (|pos| == 1 || |neg| == 1))
      && (c.conflictType == Some(NegativeDominant) ==> c.negativeStrength > c.positiveStrength >= 1 && (|pos| == 1 || |neg| == 1))
  {
    StrengthAtLeastCount(pos);
    StrengthAtLeastCount(neg);
  }

  /** The nine labels of `analyze_text`. */
  datatype Label =
    | VeryPositive | Positive | Neutral | Negative | VeryNegative
    | MixedBoth | MixedPositive | MixedNegative | MixedBalanced
  {
    predicate IsMixed()
    {
      MixedBoth? || MixedPositive? || MixedNegative? || MixedBalanced?
    }

    /** The label string the analyser stores. */
    function Text(): string
    {
      match this
      case VeryPositive => "매우 긍정"
      case Positive => "긍정"
      case Neutral => "중립"
      case Negative => "부정"
      case VeryNegative => "매우 부정"
      case MixedBoth => "혼합(양립)"
      case MixedPositive => "혼합(긍정우세)"
      case MixedNegative => "혼합(부정우세)"
      case MixedBalanced => "혼합(균형)"
    }

    /** The position of a single-sentiment label from very negative (-2) to very positive (2). */
    function Grade(): int
    {
      match this
      case VeryPositive => 2
      case Positive => 1
      case Negative => -1
      case VeryNegative => -2
      case _ => 0
    }
  }

  /** The label of `analyze_text`: by conflict type when there is a conflict (any type other
      than the first three reads as balanced), otherwise by thresholds on the mean. */
  function SentimentLabel(c: ConflictInfo, score: real): (l: Label)
    ensures l.IsMixed() <==> c.hasConflict
  {
    if c.hasConflict then
      if c.conflictType == Some(StrongMixed) then MixedBoth
      else if c.conflictType == Some(PositiveDominant) then MixedPositive
      else if c.conflictType == Some(NegativeDominant) then MixedNegative
      else MixedBalanced
    else if score >= 1.5 then VeryPositive
    else if score >= 0.5 then Positive
    else if score <= -1.5 then VeryNegative
    else if score <= -0.5 then Negative
    else Neutral
  }

  /** Without a conflict the label is fixed by which interval the mean falls in. */
  lemma LabelIntervals(c: ConflictInfo, score: real)
    requires !c.hasConflict
    ensures var l := SentimentLabel(c, score);
      && (l == VeryPositive <==> 1.5 <= score)
      && (l == Positive <==> 0.5 <= score < 1.5)
      && (l == Neutral <==> -0.5 < score < 0.5)
      && (l == Negative <==> -1.5 < score <= -0.5)
      && (l == VeryNegative <==> score <= -1.5)
  {
  }

  /** Without a conflict a higher mean never gives a more negative label. */
  lemma LabelMonotone(c: ConflictInfo, s1: real, s2: real)
    requires !c.hasConflict && s1 <= s2
    ensures SentimentLabel(c, s1).Grade() <= SentimentLabel(c, s2).Grade()
  {
  }

  /** With a conflict the label is the one of its type. */
  lemma LabelOfConflict(pos: seq<Hit>, neg: seq<Hit>, score: real)
    requires pos != [] && neg != []
    ensures var c := DetectSentimentConflict(pos, neg);
      var l := SentimentLabel(c, score);
      && (l == MixedBoth <==> c.conflictType == Some(StrongMixed))
      && (l == MixedPositive <==> c.conflictType == Some(PositiveDominant))
      && (l == MixedNegative <==> c.conflictType == Some(NegativeDominant))
      && (l == MixedBalanced <==> c.conflictType == Some(Balanced))
  {
  }

  /** Different labels have different strings. */
  lemma LabelTextsDistinct(a: Label, b: Label)
    requires a != b
    ensures a.Text() != b.Text()
  {
  }

  /** The loop of `analyze_text` over the tokens. */
  datatype Tally = Tally(scores: seq<int>, positiveWords: seq<Hit>, negativeWords: seq<Hit>, neutralCount: nat)

  /** The accumulator loop of `analyze_text`: each token found in the lexicon adds its
      polarity to `scores` and goes to the positive list, the negative list or the neutral
      count. */
  method TallySentiment(tokens: seq<string>, lex: Lexicon) returns (t: Tally)
    ensures t.scores == Scores(tokens, lex)
    ensures t.positiveWords == PositiveHits(tokens, lex)
    ensures t.negativeWords == NegativeHits(tokens, lex)
    ensures t.neutralCount == NeutralCount(tokens, lex)
  {
    var scores: seq<int> := [];
    var positiveWords: seq<Hit> := [];
    var negativeWords: seq<Hit> := [];
    var neutralCount: nat := 0;
    for i := 0 to |tokens|
      invariant scores == Scores(tokens[..i], lex)
      invariant positiveWords == PositiveHits(tokens[..i], lex)
      invariant negativeWords == NegativeHits(tokens[..i], lex)
      invariant neutralCount == NeutralCount(tokens[..i], lex)
    {
      var word := tokens[i];
      assert tokens[..i + 1][..i] == tokens[..i];
      if word in lex {
        var score := lex[word];
        scores := scores + [score];
        if score >= 1 {
          positiveWords := positiveWords + [(word, score)];
        } else if score <= -1 {
          negativeWords := negativeWords + [(word, score)];
        } else {
          neutralCount := neutralCount + 1;
        }
      }
    }
    assert tokens[..|tokens|] == tokens;
    t := Tally(scores, positiveWords, negativeWords, neutralCount);
  }

  /** A text whose tokens match nothing scores 0, lists no words and reads neutral. */
  lemma NoHitsIsNeutral(tokens: seq<string>, lex: Lexicon)
    requires Scores(tokens, lex) == []
    ensures PositiveHits(tokens, lex) == [] && NegativeHits(tokens, lex) == [] && NeutralCount(tokens, lex) == 0
    ensures var c := DetectSentimentConflict(PositiveHits(tokens, lex), NegativeHits(tokens, lex));
      Mean(Scores(tokens, lex)) == 0.0 && !c.hasConflict && SentimentLabel(c, 0.0) == Neutral
  {
    CountsAddUp(tokens, lex);
  }

  /** A text whose matched words are all positive reads positive or very positive. */
  lemma AllPositiveReadsPositive(tokens: seq<string>, lex: Lexicon)
    requires PositiveHits(tokens, lex) != [] && NegativeHits(tokens, lex) == [] && NeutralCount(tokens, lex) == 0
    ensures var s := Scores(tokens, lex);
      var c := DetectSentimentConflict(PositiveHits(tokens, lex), NegativeHits(tokens, lex));
      SentimentLabel(c, Mean(s)) in {Positive, VeryPositive}
  {
    var s := Scores(tokens, lex);
    CountsAddUp(tokens, lex);
    OnlyPositiveScores(tokens, lex);
    MeanOfPositives(s);
  }

  /** Adding one negative word to a non-empty positive list with no negatives turns a single
      label into a mixed one. */
  lemma ConflictMonotone(pos: seq<Hit>, neg: Hit, score1: real, score2: real)
    requires pos != []
    ensures !SentimentLabel(DetectSentimentConflict(pos, []), score1).IsMixed()
    ensures SentimentLabel(DetectSentimentConflict(pos, [neg]), score2).IsMixed()
  {
  }

  /** The lexicon hits of the worked example. */
  lemma ExampleHits()
    ensures var lex := map["행복" := 2, "눈물" := -1];
      var tokens := ["행복", "눈물"];
      && Scores(tokens, lex) == [2, -1]
      && PositiveHits(tokens, lex) == [("행복", 2)]
      && NegativeHits(tokens, lex) == [("눈물", -1)]
  {
    var tokens := ["행복", "눈물"];
    assert tokens[..1] == ["행복"];
    assert ["행복"][..0] == [];
  }

  /** The first worked example: 행복 (2) and 눈물 (-1) average 0.5, the positive side is
      more than 1.5 times as strong, and the label is 혼합(긍정우세). */
  lemma WorkedExample()
    ensures var lex := map["행복" := 2, "눈물" := -1];
      var tokens := ["행복", "눈물"];
      var c := DetectSentimentConflict(PositiveHits(tokens, lex), NegativeHits(tokens, lex));
      && Mean(Scores(tokens, lex)) == 0.5
      && c == ConflictInfo(true, Some(PositiveDominant), 2, 1)
      && SentimentLabel(c, Mean(Scores(tokens, lex))).Text() == "혼합(긍정우세)"
  {
    ExampleHits();
    assert Sum([2, -1]) == 1 by {
      assert [2, -1][..1] == [2];
      assert [2][..0] == [];
    }
    assert Strength([("행복", 2)]) == 2 by {
      assert [("행복", 2)][..0] == [];
    }
    assert Strength([("눈물", -1)]) == 1 by {
      assert [("눈물", -1)][..0] == [];
    }
  }
}
