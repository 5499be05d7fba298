/** `extract_keywords`: the distinct lexicon words of length at least 2 and polarity at least 1
    in absolute value, sorted by absolute polarity, highest first (ties in order of first
    occurrence), cut to the first `top_n`. */
module Keywords {
  import opened Ordering
  import opened Lexicon

  /** A word may become a keyword. */
  predicate Qualifies(w: string, lex: Lexicon)
  {
    w in lex && |w| >= 2 && Abs(lex[w]) >= 1
  }

  function AbsKey(p: Hit): real
  {
    Abs(p.1) as real
  }

  /** `p` is ahead of `q` in the sorted order: stronger, or as strong and seen first. */
  predicate Before(p: Hit, q: Hit, words: seq<string>)
  {
    Abs(p.1) > Abs(q.1) || (Abs(p.1) == Abs(q.1) && IndexOf(words, p.0) < IndexOf(words, q.0))
  }

  /** What `extract_keywords(words, top_n)` promises of its result `r`. */
  ghost predicate KeywordSelection(r: seq<Hit>, words: seq<string>, lex: Lexicon, topN: nat)
  {
    |r| <= topN && Ranked(r, words, lex) && OnlyFullLeavesOut(r, words, lex, topN)
  }

  /** The entries are distinct qualifying words of `words` with their polarity, in
      non-increasing strength, and equal strengths in order of first occurrence. */
  ghost predicate Ranked(s: seq<Hit>, words: seq<string>, lex: Lexicon)
  {
    && (forall i :: 0 <= i < |s| ==> s[i].0 in words && Qualifies(s[i].0, lex) && s[i].1 == lex[s[i].0])
    && (forall i, j :: 0 <= i < j < |s| ==> s[i].0 != s[j].0)
    && (forall i, j :: 0 <= i < j < |s| ==> Abs(s[i].1) >= Abs(s[j].1))
    && (forall i, j :: 0 <= i < j < |s| && Abs(s[i].1) == Abs(s[j].1) ==>
          IndexOf(words, s[i].0) < IndexOf(words, s[j].0))
  }

  /** A qualifying word is left out only when the list is full of words that come before it. */
  ghost predicate OnlyFullLeavesOut(r: seq<Hit>, words: seq<string>, lex: Lexicon, topN: nat)
  {
    forall w :: w in words && Qualifies(w, lex) && (forall i :: 0 <= i < |r| ==> r[i].0 != w) ==>
      |r| == topN && forall i :: 0 <= i < |r| ==> Before(r[i], (w, lex[w]), words)
  }

  /** The dictionary `keyword_scores` after the loop has seen `seen`: its items are qualifying
      words of `seen` with their polarity, in order of first occurrence in `words`, and every
      qualifying word of `seen` is a key. */
  ghost predicate Collected(d: seq<Hit>, seen: seq<string>, words: seq<string>, lex: Lexicon)
  {
    && (forall j :: 0 <= j < |d| ==> d[j].0 in seen && Qualifies(d[j].0, lex) && d[j].1 == lex[d[j].0])
    && (forall j, k :: 0 <= j < k < |d| ==> IndexOf(words, d[j].0) < IndexOf(words, d[k].0))
    && (forall w :: w in seen && Qualifies(w, lex) ==> w in KeysOf(d))
  }

  /** The loop body `keyword_scores[word] = polarity` keeps `Collected`. */
  lemma CollectStep(d: seq<Hit>, words: seq<string>, lex: Lexicon, i: nat)
    requires i < |words| && Collected(d, words[..i], words, lex)
    ensures Qualifies(words[i], lex) ==> Collected(Put(d, words[i], lex[words[i]]), words[..i + 1], words, lex)
    ensures !Qualifies(words[i], lex) ==> Collected(d, words[..i + 1], words, lex)
  {
    var w := words[i];
    assert words[..i + 1] == words[..i] + [w];
    if Qualifies(w, lex) {
      if w in KeysOf(d) {
        forall j | 0 <= j < |d| && d[j].0 == w ensures d[j].1 == lex[w] { }
        PutSame(d, w, lex[w]);
      } else {
        PutNew(d, w, lex[w]);
        CollectNew(d, words, lex, i);
      }
    }
  }

  /** A qualifying word seen for the first time goes last and keeps `Collected`. */
  lemma CollectNew(d: seq<Hit>, words: seq<string>, lex: Lexicon, i: nat)
    requires i < |words| && Collected(d, words[..i], words, lex)
    requires Qualifies(words[i], lex) && words[i] !in KeysOf(d)
    ensures Collected(d + [(words[i], lex[words[i]])], words[..i + 1], words, lex)
  {
    var w := words[i];
    var d' := d + [(w, lex[w])];
    assert words[..i + 1] == words[..i] + [w];
    assert w !in words[..i];
    IndexOfFirst(words, i);
    forall j | 0 <= j < |d| ensures IndexOf(words, d[j].0) < i {
      IndexOfBelow(words, d[j].0, i);
    }
    forall v | v in words[..i + 1] && Qualifies(v, lex) ensures v in KeysOf(d') {
      if v == w {
        assert d'[|d|].0 == w;
      } else {
        assert v in words[..i];
        var j :| 0 <= j < |d| && d[j].0 == v;
        assert d'[j].0 == v;
      }
    }
  }

  /** Sorting the collected items by absolute polarity ranks them. */
  lemma SortedFacts(d: seq<Hit>, words: seq<string>, lex: Lexicon)
    requires Collected(d, words, words, lex)
    ensures Ranked(SortDesc(d, AbsKey), words, lex)
    ensures forall y :: y in SortDesc(d, AbsKey) <==> y in d
  {
    var s := SortDesc(d, AbsKey);
    SortedMembers(d, s, words, lex);
    SortedOrder(d, s, words);
    SortedDistinct(s, words, lex);
  }

  /** Items that carry their word's polarity and keep equal strengths in order of first
      occurrence have distinct words. */
  lemma SortedDistinct(s: seq<Hit>, words: seq<string>, lex: Lexicon)
    requires forall i :: 0 <= i < |s| ==> s[i].0 in lex && s[i].1 == lex[s[i].0]
    requires forall i, j :: 0 <= i < j < |s| && Abs(s[i].1) == Abs(s[j].1) ==>
      IndexOf(words, s[i].0) < IndexOf(words, s[j].0)
    ensures forall i, j :: 0 <= i < j < |s| ==> s[i].0 != s[j].0
  {
  }

  /** The sort keeps the collected items, so each is a qualifying word with its polarity. */
  lemma SortedMembers(d: seq<Hit>, s: seq<Hit>, words: seq<string>, lex: Lexicon)
    requires Collected(d, words, words, lex)
    requires s == SortDesc(d, AbsKey)
    ensures forall y :: y in s <==> y in d
    ensures forall i :: 0 <= i < |s| ==> s[i].0 in words && Qualifies(s[i].0, lex) && s[i].1 == lex[s[i].0]
  {
    forall y ensures y in s <==> y in d {
      assert y in s <==> y in multiset(s);
      assert y in d <==> y in multiset(d);
    }
    forall i | 0 <= i < |s| ensures s[i].0 in words && Qualifies(s[i].0, lex) && s[i].1 == lex[s[i].0] {
      assert s[i] in multiset(s);
      var j :| 0 <= j < |d| && d[j] == s[i];
    }
  }

  /** The sorted items have non-increasing strength, and equal strengths keep the order of
      first occurrence. */
  lemma SortedOrder(d: seq<Hit>, s: seq<Hit>, words: seq<string>)
    requires forall j, k :: 0 <= j < k < |d| ==> IndexOf(words, d[j].0) < IndexOf(words, d[k].0)
    requires s == SortDesc(d, AbsKey)
    ensures forall i, j :: 0 <= i < j < |s| ==> Abs(s[i].1) >= Abs(s[j].1)
    ensures forall i, j :: 0 <= i < j < |s| && Abs(s[i].1) == Abs(s[j].1) ==>
      IndexOf(words, s[i].0) < IndexOf(words, s[j].0)
  {
    var f := (p: Hit) => IndexOf(words, p.0) as int;
    assert IncreasingBy(d, f);
    SortDescFacts(d, AbsKey, f);
    forall i, j | 0 <= i < j < |s| ensures Abs(s[i].1) >= Abs(s[j].1) {
      assert AbsKey(s[i]) >= AbsKey(s[j]);
    }
    forall i, j | 0 <= i < j < |s| && Abs(s[i].1) == Abs(s[j].1)
      ensures IndexOf(words, s[i].0) < IndexOf(words, s[j].0)
    {
      assert AbsKey(s[i]) == AbsKey(s[j]);
      assert f(s[i]) < f(s[j]);
    }
  }

  /** A prefix of a ranked list is ranked. */
  lemma TakeRanked(s: seq<Hit>, words: seq<string>, lex: Lexicon, topN: nat)
    requires Ranked(s, words, lex)
    ensures Ranked(Take(s, topN), words, lex)
    ensures forall i :: 0 <= i < |Take(s, topN)| ==> Take(s, topN)[i] == s[i]
  {
  }

  /** Cutting a ranked list of all qualifying words to `top_n` meets `KeywordSelection`. */
  lemma TakeFacts(s: seq<Hit>, words: seq<string>, lex: Lexicon, topN: nat)
    requires Ranked(s, words, lex)
    requires forall w :: w in words && Qualifies(w, lex) ==> exists m :: 0 <= m < |s| && s[m].0 == w
    ensures KeywordSelection(Take(s, topN), words, lex, topN)
  {
    TakeRanked(s, words, lex, topN);
    TakeLeavesOutOnlyWhenFull(s, words, lex, topN);
  }

  lemma TakeLeavesOutOnlyWhenFull(s: seq<Hit>, words: seq<string>, lex: Lexicon, topN: nat)
    requires Ranked(s, words, lex)
    requires forall w :: w in words && Qualifies(w, lex) ==> exists m :: 0 <= m < |s| && s[m].0 == w
    ensures OnlyFullLeavesOut(Take(s, topN), words, lex, topN)
  {
    var r := Take(s, topN);
    forall w | w in words && Qualifies(w, lex) && (forall i :: 0 <= i < |r| ==> r[i].0 != w)
      ensures |r| == topN && forall i :: 0 <= i < |r| ==> Before(r[i], (w, lex[w]), words)
    {
      var m :| 0 <= m < |s| && s[m].0 == w;
      assert m >= |r|;
      assert s[m] == (w, lex[w]);
      forall i | 0 <= i < |r| ensures Before(r[i], (w, lex[w]), words) {
        assert r[i] == s[i];
        assert s[i].0 != s[m].0;
        assert Abs(s[i].1) >= Abs(s[m].1);
      }
    }
  }

  /** Sorting the collected items and cutting the list meets `KeywordSelection`. */
  lemma SelectionFacts(d: seq<Hit>, words: seq<string>, lex: Lexicon, topN: nat)
    requires Collected(d, words, words, lex)
    ensures KeywordSelection(Take(SortDesc(d, AbsKey), topN), words, lex, topN)
  {
    var s := SortDesc(d, AbsKey);
    SortedFacts(d, words, lex);
    forall w | w in words && Qualifies(w, lex) ensures exists m :: 0 <= m < |s| && s[m].0 == w {
      var j :| 0 <= j < |d| && d[j].0 == w;
      assert d[j] in s;
    }
    TakeFacts(s, words, lex, topN);
  }

  /** `extract_keywords(words, top_n)`. */
  method ExtractKeywords(words: seq<string>, lex: Lexicon, topN: nat) returns (r: seq<Hit>)
    ensures KeywordSelection(r, words, lex, topN)
  {
    var keywordScores: seq<Hit> := [];
    for i := 0 to |words|
      invariant Collected(keywordScores, words[..i], words, lex)
    {
      CollectStep(keywordScores, words, lex, i);
      var word := words[i];
      if word in lex && |word| >= 2 {
        var score := Abs(lex[word]);
        if score >= 1 {
          keywordScores := Put(keywordScores, word, lex[word]);
        }
      }
    }
    assert words[..|words|] == words;
    SelectionFacts(keywordScores, words, lex, topN);
    r := Take(SortDesc(keywordScores, AbsKey), topN);
  }
}
