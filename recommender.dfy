/** The selection step of `recommend_personalized_copies` in the windowed program. The
    similarity of each database copy to the user's liked ads comes from a TF-IDF and cosine
    computation that is not part of this model: it is an input, `None` when that computation
    raises. */
module Recommender {
  import opened Wrappers
  import opened Ordering

  /** A rated ad of the user's history. */
  datatype RatedAd = RatedAd(adText: string, overallRating: int)

  /** An entry of the ad-copy database; `category` is `None` when the entry has no such key. */
  datatype AdCopy = AdCopy(text: string, brand: Option<string>, category: Option<string>)

  datatype Recommendation = Recommendation(copy: AdCopy, similarity: real, reason: string)

  /** The least similarity a recommended copy must have. */
  const MinSimilarity: real := 0.1

  /** The rating an ad needs to count as liked. */
  const LikedRating: int := 7

  /** The reason string: the copy's category, or 기타 when it has none, followed by ` 스타일`. */
  function Reason(c: AdCopy): (r: string)
    ensures c.category.Some? ==> r == c.category.value + " 스타일"
    ensures c.category.None? ==> r == "기타 스타일"
  {
    c.category.GetOr("기타") + " 스타일"
  }

  /** `valid_indices`: the positions among the first `n` whose similarity is at least 0.1,
      in increasing order. */
  function ValidIndices(sims: seq<real>, n: nat): (v: seq<int>)
    requires n <= |sims|
    ensures forall k :: 0 <= k < |v| ==> 0 <= v[k] < n && sims[v[k]] >= MinSimilarity
    ensures forall k, l :: 0 <= k < l < |v| ==> v[k] < v[l]
  {
    if n == 0 then []
    else
      var init := ValidIndices(sims, n - 1);
      var e: seq<int> := if sims[n - 1] >= MinSimilarity then [n - 1] else [];
      assert forall k :: 0 <= k < |init| ==> (init + e)[k] == init[k];
      init + e
  }

  /** The valid positions are exactly the positions of similarity at least 0.1, in increasing
      order. */
  lemma ValidIndicesFacts(sims: seq<real>, n: nat)
    requires n <= |sims|
    ensures forall k :: 0 <= k < |ValidIndices(sims, n)| ==>
      0 <= ValidIndices(sims, n)[k] < n && sims[ValidIndices(sims, n)[k]] >= MinSimilarity
    ensures forall i :: 0 <= i < n && sims[i] >= MinSimilarity ==> i in ValidIndices(sims, n)
    ensures forall k, l :: 0 <= k < l < |ValidIndices(sims, n)| ==> ValidIndices(sims, n)[k] < ValidIndices(sims, n)[l]
  {
    ValidIndicesComplete(sims, n);
  }

  lemma {:induction false} ValidIndicesComplete(sims: seq<real>, n: nat)
    requires n <= |sims|
    ensures forall i :: 0 <= i < n && sims[i] >= MinSimilarity ==> i in ValidIndices(sims, n)
  {
    if n > 0 {
      ValidIndicesComplete(sims, n - 1);
      var v := ValidIndices(sims, n - 1);
      var e: seq<int> := if sims[n - 1] >= MinSimilarity then [n - 1] else [];
      forall i | 0 <= i < n && sims[i] >= MinSimilarity ensures i in v + e {
        if i < n - 1 {
          assert i in v;
        } else {
          assert e == [n - 1];
        }
      }
    }
  }

  /** The sort key of a position: its similarity. */
  function SimKey(sims: seq<real>): int -> real
  {
    (i: int) => if 0 <= i < |sims| then sims[i] else 0.0
  }

  /** The valid positions sorted by similarity, highest first and stable. */
  function SortedIndices(sims: seq<real>): (s: seq<int>)
    ensures forall k :: 0 <= k < |s| ==> 0 <= s[k] < |sims| && sims[s[k]] >= MinSimilarity
    ensures forall i :: 0 <= i < |sims| && sims[i] >= MinSimilarity ==> i in s
  {
    var v := ValidIndices(sims, |sims|);
    ValidIndicesFacts(sims, |sims|);
    var s := SortDesc(v, SimKey(sims));
    forall k | 0 <= k < |s| ensures s[k] in v {
      assert s[k] in multiset(s);
    }
    forall i | i in v ensures i in s {
      assert i in multiset(v);
    }
    s
  }

  /** `top_indices`: the valid positions sorted by similarity, highest first, cut to `top_n`. */
  function TopIndices(sims: seq<real>, topN: nat): (t: seq<int>)
    ensures |t| <= topN
    ensures forall k :: 0 <= k < |t| ==> 0 <= t[k] < |sims| && sims[t[k]] >= MinSimilarity
  {
    Take(SortedIndices(sims), topN)
  }

  /** Read through the sort key, a sorted stable list of positions is ordered by similarity. */
  lemma KeyOrderIsSimilarityOrder(sims: seq<real>, s: seq<int>)
    requires forall k :: 0 <= k < |s| ==> 0 <= s[k] < |sims|
    requires SortedDesc(s, SimKey(sims))
    requires forall k, l :: 0 <= k < l < |s| && SimKey(sims)(s[k]) == SimKey(sims)(s[l]) ==> s[k] < s[l]
    ensures forall k, l :: 0 <= k < l < |s| ==> sims[s[k]] >= sims[s[l]]
    ensures forall k, l :: 0 <= k < l < |s| ==> s[k] != s[l]
    ensures forall k, l :: 0 <= k < l < |s| && sims[s[k]] == sims[s[l]] ==> s[k] < s[l]
  {
    var key := SimKey(sims);
    forall k, l | 0 <= k < l < |s| ensures sims[s[k]] >= sims[s[l]] {
      assert key(s[k]) >= key(s[l]);
    }
    forall k, l | 0 <= k < l < |s| ensures s[k] != s[l] {
      assert key(s[k]) != key(s[l]) || s[k] < s[l];
    }
    forall k, l | 0 <= k < l < |s| && sims[s[k]] == sims[s[l]] ensures s[k] < s[l] {
      assert key(s[k]) == key(s[l]);
    }
  }

  /** The sorted valid positions are distinct, in non-increasing similarity, and equal
      similarities keep database order. */
  lemma SortedIndicesOrder(sims: seq<real>)
    ensures var s := SortedIndices(sims);
      && (forall k, l :: 0 <= k < l < |s| ==> sims[s[k]] >= sims[s[l]])
      && (forall k, l :: 0 <= k < l < |s| ==> s[k] != s[l])
      && (forall k, l :: 0 <= k < l < |s| && sims[s[k]] == sims[s[l]] ==> s[k] < s[l])
  {
    var v := ValidIndices(sims, |sims|);
    ValidIndicesFacts(sims, |sims|);
    var f := (i: int) => i;
    assert IncreasingBy(v, f);
    SortDescFacts(v, SimKey(sims), f);
    KeyOrderIsSimilarityOrder(sims, SortedIndices(sims));
  }

  /** What `top_indices` satisfies: at most `top_n` distinct positions of similarity at least
      0.1, highest similarity first, equal similarities in database order, and a valid position
      is left out only when the list is full of positions at least as similar. */
  lemma TopIndicesFacts(sims: seq<real>, topN: nat)
    ensures var t := TopIndices(sims, topN);
      && |t| <= topN
      && (forall k, l :: 0 <= k < l < |t| ==> sims[t[k]] >= sims[t[l]])
      && (forall k, l :: 0 <= k < l < |t| ==> t[k] != t[l])
      && (forall k, l :: 0 <= k < l < |t| && sims[t[k]] == sims[t[l]] ==> t[k] < t[l])
      && (forall i :: 0 <= i < |sims| && sims[i] >= MinSimilarity && i !in t ==>
            |t| == topN && forall k :: 0 <= k < |t| ==> sims[t[k]] > sims[i] || (sims[t[k]] == sims[i] && t[k] < i))
  {
    var s := SortedIndices(sims);
    SortedIndicesOrder(sims);
    var t := TopIndices(sims, topN);
    assert forall k :: 0 <= k < |t| ==> t[k] == s[k];
    forall i | 0 <= i < |sims| && sims[i] >= MinSimilarity && i !in t
      ensures |t| == topN && forall k :: 0 <= k < |t| ==> sims[t[k]] > sims[i] || (sims[t[k]] == sims[i] && t[k] < i)
    {
      var m :| 0 <= m < |s| && s[m] == i;
      assert m >= |t|;
      forall k | 0 <= k < |t| ensures sims[t[k]] > sims[i] || (sims[t[k]] == sims[i] && t[k] < i) {
        assert s[k] != s[m];
      }
    }
  }

  lemma NoValidNoTop(sims: seq<real>, topN: nat)
    requires ValidIndices(sims, |sims|) == []
    ensures TopIndices(sims, topN) == []
  {
    SortDescElements(ValidIndices(sims, |sims|), SimKey(sims));
  }

  /** `high_rated_ads`: the rated ads with a rating of 7 or more, in order. */
  function HighRatedAds(ads: seq<RatedAd>): (h: seq<RatedAd>)
    ensures forall a :: a in h ==> a in ads && a.overallRating >= LikedRating
  {
    if ads == [] then []
    else
      var init := HighRatedAds(ads[..|ads| - 1]);
      var last := ads[|ads| - 1];
      assert forall a :: a in ads[..|ads| - 1] ==> a in ads;
      init + (if last.overallRating >= LikedRating then [last] else [])
  }

  /** An ad rated 7 or more is always kept. */
  lemma {:induction false} HighRatedAdsComplete(ads: seq<RatedAd>)
    ensures forall k :: 0 <= k < |ads| && ads[k].overallRating >= LikedRating ==> ads[k] in HighRatedAds(ads)
  {
    if ads != [] {
      var init := ads[..|ads| - 1];
      HighRatedAdsComplete(init);
      forall k | 0 <= k < |ads| - 1 ensures ads[k] == init[k] { }
    }
  }

  /** Whether the gates of `recommend_personalized_copies` let a request through: a non-empty
      database, at least three rated ads, and at least one ad rated 7 or more. */
  predicate Gated(database: seq<AdCopy>, ads: seq<RatedAd>)
  {
    database != [] && |ads| >= 3 && exists k :: 0 <= k < |ads| && ads[k].overallRating >= LikedRating
  }

  /** The recommendations built from `top_indices`, one per position, in order. */
  ghost predicate BuiltFrom(recs: seq<Recommendation>, database: seq<AdCopy>, sims: seq<real>, t: seq<int>)
    requires forall k :: 0 <= k < |t| ==> 0 <= t[k] < |sims| && t[k] < |database|
  {
    && |recs| == |t|
    && forall k :: 0 <= k < |recs| ==>
         recs[k] == Recommendation(database[t[k]], sims[t[k]], Reason(database[t[k]]))
  }

  /** What the recommendations satisfy: at most `top_n`, each at least 0.1 similar, most
      similar first, and each with the reason of its copy. */
  ghost predicate WellRanked(recs: seq<Recommendation>, topN: nat)
  {
    && |recs| <= topN
    && (forall k :: 0 <= k < |recs| ==> recs[k].similarity >= MinSimilarity)
    && (forall k, l :: 0 <= k < l < |recs| ==> recs[k].similarity >= recs[l].similarity)
    && (forall k :: 0 <= k < |recs| ==> recs[k].reason == Reason(recs[k].copy))
  }

  lemma BuiltIsWellRanked(recs: seq<Recommendation>, database: seq<AdCopy>, sims: seq<real>, topN: nat)
    requires |sims| == |database|
    requires BuiltFrom(recs, database, sims, TopIndices(sims, topN))
    ensures WellRanked(recs, topN)
  {
    TopIndicesFacts(sims, topN);
  }

  /** The loop that pairs each chosen position with its copy, its similarity and its reason. */
  method BuildRecommendations(database: seq<AdCopy>, sims: seq<real>, topIndices: seq<int>)
    returns (recs: seq<Recommendation>)
    requires forall k :: 0 <= k < |topIndices| ==> 0 <= topIndices[k] < |sims| && topIndices[k] < |database|
    ensures BuiltFrom(recs, database, sims, topIndices)
  {
    recs := [];
    for k := 0 to |topIndices|
      invariant |recs| == k
      invariant forall j :: 0 <= j < k ==>
        recs[j] == Recommendation(database[topIndices[j]], sims[topIndices[j]], Reason(database[topIndices[j]]))
    {
      var idx := topIndices[k];
      var copyData := database[idx];
      var similarity := sims[idx];
      var reason := Reason(copyData);
      recs := recs + [Recommendation(copyData, similarity, reason)];
    }
  }

  /** `recommend_personalized_copies(top_n)`, with `similarities` standing for the cosine
      similarity of each database copy to the mean TF-IDF vector of the liked ads. */
  method RecommendPersonalizedCopies(
    database: seq<AdCopy>, ads: seq<RatedAd>, similarities: Option<seq<real>>, topN: nat)
    returns (recs: seq<Recommendation>)
    requires similarities.Some? ==> |similarities.value| == |database|
    ensures !Gated(database, ads) || similarities.None? ==> recs == []
    ensures Gated(database, ads) && similarities.Some? ==>
      BuiltFrom(recs, database, similarities.value, TopIndices(similarities.value, topN))
    ensures WellRanked(recs, topN)
  {
    if database == [] {
      return [];
    }
    if |ads| < 3 {
      return [];
    }
    var highRatedAds := HighRatedAds(ads);
    if highRatedAds == [] {
      HighRatedAdsComplete(ads);
      return [];
    }
    assert Gated(database, ads) by {
      assert highRatedAds[0] in ads;
    }
    if similarities.None? {
      return [];
    }
    var sims := similarities.value;
    var validIndices := ValidIndices(sims, |sims|);
    if validIndices == [] {
      NoValidNoTop(sims, topN);
      return [];
    }
    var topIndices := TopIndices(sims, topN);
    recs := BuildRecommendations(database, sims, topIndices);
    BuiltIsWellRanked(recs, database, sims, topN);
  }

  /** Fewer than three rated ads give no recommendation, whatever the database holds. */
  lemma TooFewRatings(database: seq<AdCopy>, ads: seq<RatedAd>)
    requires |ads| < 3
    ensures !Gated(database, ads)
  {
  }
}
