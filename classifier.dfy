/** The category classifier behind `classify_ad_style` and `classify_industry`. A table is
    the ordered list of (category, keyword list) items of a dictionary literal; each category
    scores the number of its keywords found, categories scoring 0 are dropped, the rest are
    sorted by score, highest first, keeping table order on ties, and a text that matches
    nothing gets the single entry `('기타', 0)`. */
module Classifier {
  import opened Text
  import opened Ordering

  type Table = seq<(string, seq<string>)>

  /** A category with its score. */
  type Scored = (string, int)

  /** The result for a text that matches no category. */
  const Other: Scored := ("기타", 0)

  /** The items of a dictionary have distinct keys. */
  predicate DistinctNames(table: Table)
  {
    forall i, j :: 0 <= i < j < |table| ==> table[i].0 != table[j].0
  }

  /** The number of keywords that occur in the text as substrings: 0 exactly when none
      occurs, and every keyword exactly when all occur. */
  function SubstringScore(text: string, keywords: seq<string>): (n: nat)
    ensures n <= |keywords|
    ensures n == 0 <==> forall k :: 0 <= k < |keywords| ==> !Contains(text, keywords[k])
    ensures n == |keywords| <==> forall k :: 0 <= k < |keywords| ==> Contains(text, keywords[k])
  {
    if keywords == [] then 0
    else
      var init := keywords[..|keywords| - 1];
      var last := keywords[|keywords| - 1];
      assert forall k :: 0 <= k < |init| ==> init[k] == keywords[k];
      SubstringScore(text, init) + (if Contains(text, last) then 1 else 0)
  }

  /** A keyword counts for the morpheme-aware classifier. */
  predicate MorphemeMatch(text: string, morphemes: seq<string>, keyword: string)
  {
    Contains(text, keyword) || keyword in morphemes
  }

  /** The score of the morpheme-aware classifier: a keyword counts once when it is a
      substring of the text, or else when it equals one of the morphemes. The score is 0
      exactly when no keyword matches either way, and full exactly when every one does. */
  function MorphemeScore(text: string, morphemes: seq<string>, keywords: seq<string>): (n: nat)
    ensures n <= |keywords|
    ensures n == 0 <==> forall k :: 0 <= k < |keywords| ==> !MorphemeMatch(text, morphemes, keywords[k])
    ensures n == |keywords| <==> forall k :: 0 <= k < |keywords| ==> MorphemeMatch(text, morphemes, keywords[k])
  {
    if keywords == [] then 0
    else
      var init := keywords[..|keywords| - 1];
      var last := keywords[|keywords| - 1];
      assert forall k :: 0 <= k < |init| ==> init[k] == keywords[k];
      MorphemeScore(text, morphemes, init)
        + (if Contains(text, last) then 1 else if last in morphemes then 1 else 0)
  }

  /** A keyword adds at most one to the score whichever way it matches, so the score lies
      between the plain substring score and the number of keywords. */
  lemma {:induction false} MorphemeScoreBounds(text: string, morphemes: seq<string>, keywords: seq<string>)
    ensures SubstringScore(text, keywords) <= MorphemeScore(text, morphemes, keywords) <= |keywords|
    ensures |morphemes| == 0 ==> MorphemeScore(text, morphemes, keywords) == SubstringScore(text, keywords)
  {
    if keywords != [] {
      MorphemeScoreBounds(text, morphemes, keywords[..|keywords| - 1]);
    }
  }

  /** Every category of the table with its substring score, in table order. */
  function SubstringScores(text: string, table: Table): (all: seq<Scored>)
    ensures |all| == |table|
    ensures forall i :: 0 <= i < |table| ==> all[i] == (table[i].0, SubstringScore(text, table[i].1))
  {
    seq(|table|, i requires 0 <= i < |table| => (table[i].0, SubstringScore(text, table[i].1)))
  }

  /** Every category of the table with its morpheme-aware score, in table order. */
  function MorphemeScores(text: string, morphemes: seq<string>, table: Table): (all: seq<Scored>)
    ensures |all| == |table|
    ensures forall i :: 0 <= i < |table| ==> all[i] == (table[i].0, MorphemeScore(text, morphemes, table[i].1))
  {
    seq(|table|, i requires 0 <= i < |table| => (table[i].0, MorphemeScore(text, morphemes, table[i].1)))
  }

  /** The categories with a positive score, in their order. */
  function Positive(s: seq<Scored>): seq<Scored>
  {
    if s == [] then [] else (if s[0].1 > 0 then [s[0]] else []) + Positive(s[1..])
  }

  function ScoreKey(p: Scored): real
  {
    p.1 as real
  }

  /** The positive scores sorted by score, highest first and stable, or the single entry
      `('기타', 0)` when there are none. */
  function Rank(found: seq<Scored>): (r: seq<Scored>)
    ensures found == [] ==> r == [Other]
    ensures found != [] ==> multiset(r) == multiset(found) && SortedDesc(r, ScoreKey)
  {
    if found == [] then [Other] else SortDesc(found, ScoreKey)
  }

  /** What the classifier promises about its result `r` for the scores `all` of a table:
      the sentinel exactly when no category scores; otherwise exactly the categories that
      score, with their scores, highest first, and equal scores in table order. */
  ghost predicate RankedFrom(r: seq<Scored>, all: seq<Scored>)
  {
    && (r == [Other] <==> forall i :: 0 <= i < |all| ==> all[i].1 <= 0)
    && (r != [Other] ==>
      && (forall j :: 0 <= j < |r| ==> r[j] in all && r[j].1 > 0)
      && (forall i :: 0 <= i < |all| && all[i].1 > 0 ==> all[i] in r)
      && (forall i, j :: 0 <= i < j < |r| ==> r[i].1 >= r[j].1)
      && (forall i, j :: 0 <= i < j < |r| && r[i].1 == r[j].1 ==> IndexOf(all, r[i]) < IndexOf(all, r[j])))
  }

  lemma {:induction false} PositiveAppend(a: seq<Scored>, b: seq<Scored>)
    ensures Positive(a + b) == Positive(a) + Positive(b)
  {
    if a == [] {
      assert a + b == b;
    } else {
      assert (a + b)[1..] == a[1..] + b;
      PositiveAppend(a[1..], b);
    }
  }

  lemma {:induction false} PositiveMembers(s: seq<Scored>)
    ensures forall y :: y in Positive(s) <==> y in s && y.1 > 0
  {
    if s != [] {
      PositiveMembers(s[1..]);
      assert s == [s[0]] + s[1..];
    }
  }

  lemma {:induction false} PositiveIncreasing(s: seq<Scored>, f: Scored -> int)
    requires IncreasingBy(s, f)
    ensures IncreasingBy(Positive(s), f)
  {
    if s != [] {
      PositiveIncreasing(s[1..], f);
      PositiveMembers(s[1..]);
      forall y | y in Positive(s[1..]) ensures f(s[0]) < f(y) {
        var j :| 1 <= j < |s| && s[j] == y;
      }
    }
  }

  /** Ranking the positive scores of a table with distinct names meets `RankedFrom`. */
  lemma RankFacts(all: seq<Scored>, found: seq<Scored>)
    requires forall i, j :: 0 <= i < j < |all| ==> all[i].0 != all[j].0
    requires found == Positive(all)
    ensures RankedFrom(Rank(found), all)
  {
    if found == [] {
      NothingScores(all);
    } else {
      var r := SortDesc(found, ScoreKey);
      assert r[0] in multiset(found);
      RankMembers(all, found, r);
      RankTieOrder(all, found, r);
      assert r[0] in all && r[0].1 > 0;
      assert r != [Other];
    }
  }

  /** No positive score means no category scores. */
  lemma NothingScores(all: seq<Scored>)
    requires Positive(all) == []
    ensures forall i :: 0 <= i < |all| ==> all[i].1 <= 0
  {
    PositiveMembers(all);
    forall i | 0 <= i < |all| ensures all[i].1 <= 0 {
      assert all[i] in all;
    }
  }

  lemma RankMembers(all: seq<Scored>, found: seq<Scored>, r: seq<Scored>)
    requires found == Positive(all)
    requires r == SortDesc(found, ScoreKey)
    ensures forall j :: 0 <= j < |r| ==> r[j] in all && r[j].1 > 0
    ensures forall i :: 0 <= i < |all| && all[i].1 > 0 ==> all[i] in r
  {
    PositiveMembers(all);
    forall j | 0 <= j < |r| ensures r[j] in all && r[j].1 > 0 {
      assert r[j] in multiset(r);
      assert r[j] in found;
    }
    forall i | 0 <= i < |all| && all[i].1 > 0 ensures all[i] in r {
      assert all[i] in found;
      assert all[i] in multiset(found);
    }
  }

  lemma RankTieOrder(all: seq<Scored>, found: seq<Scored>, r: seq<Scored>)
    requires forall i, j :: 0 <= i < j < |all| ==> all[i].0 != all[j].0
    requires found == Positive(all)
    requires r == SortDesc(found, ScoreKey)
    ensures forall i, j :: 0 <= i < j < |r| ==> r[i].1 >= r[j].1
    ensures forall i, j :: 0 <= i < j < |r| && r[i].1 == r[j].1 ==> IndexOf(all, r[i]) < IndexOf(all, r[j])
  {
    var f := (p: Scored) => IndexOf(all, p) as int;
    forall i | 0 <= i < |all| ensures IndexOf(all, all[i]) == i {
      IndexOfFirst(all, i);
    }
    assert IncreasingBy(all, f);
    PositiveIncreasing(all, f);
    SortDescFacts(found, ScoreKey, f);
    forall i, j | 0 <= i < j < |r| ensures r[i].1 >= r[j].1 {
      assert ScoreKey(r[i]) >= ScoreKey(r[j]);
    }
    forall i, j | 0 <= i < j < |r| && r[i].1 == r[j].1 ensures IndexOf(all, r[i]) < IndexOf(all, r[j]) {
      assert ScoreKey(r[i]) == ScoreKey(r[j]);
      assert f(r[i]) < f(r[j]);
    }
  }

  /** `classify_ad_style` / `classify_industry` of the substring classifier. */
  method ClassifyBySubstring(text: string, table: Table) returns (r: seq<Scored>)
    requires DistinctNames(table)
    ensures RankedFrom(r, SubstringScores(text, table))
  {
    ghost var all := SubstringScores(text, table);
    var found: seq<Scored> := [];
    for i := 0 to |table|
      invariant found == Positive(all[..i])
    {
      var (name, keywords) := table[i];
      var score := SubstringScore(text, keywords);
      if score > 0 {
        found := found + [(name, score)];
      }
      assert all[..i + 1] == all[..i] + [all[i]];
      PositiveAppend(all[..i], [all[i]]);
    }
    assert all[..|table|] == all;
    r := Rank(found);
    RankFacts(all, found);
  }

  /** The inner loop of the morpheme-aware classifier: one point per keyword found in the
      text, or else among the morphemes. */
  method CountMorphemeMatches(text: string, morphemes: seq<string>, keywords: seq<string>) returns (score: nat)
    ensures score == MorphemeScore(text, morphemes, keywords)
  {
    score := 0;
    for j := 0 to |keywords|
      invariant score == MorphemeScore(text, morphemes, keywords[..j])
    {
      assert keywords[..j + 1][..j] == keywords[..j];
      if Contains(text, keywords[j]) {
        score := score + 1;
      } else if keywords[j] in morphemes {
        score := score + 1;
      }
    }
    assert keywords[..|keywords|] == keywords;
  }

  /** The morpheme-aware `classify_ad_style(text, morphemes)` / `classify_industry`. */
  method ClassifyWithMorphemes(text: string, morphemes: seq<string>, table: Table) returns (r: seq<Scored>)
    requires DistinctNames(table)
    ensures RankedFrom(r, MorphemeScores(text, morphemes, table))
  {
    ghost var all := MorphemeScores(text, morphemes, table);
    var found: seq<Scored> := [];
    for i := 0 to |table|
      invariant found == Positive(all[..i])
    {
      var (name, keywords) := table[i];
      var score := CountMorphemeMatches(text, morphemes, keywords);
      if score > 0 {
        found := found + [(name, score)];
      }
      assert all[..i + 1] == all[..i] + [all[i]];
      PositiveAppend(all[..i], [all[i]]);
    }
    assert all[..|table|] == all;
    r := Rank(found);
    RankFacts(all, found);
  }
}
