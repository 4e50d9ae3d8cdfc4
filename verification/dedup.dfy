/**
 ASSUMPTION, not the library: a keep-first near-duplicate filter standing in for
 `nlp.RemoveDuplicates`, whose code is not part of this model. It walks the
 articles in order and keeps one unless its title is near a title already kept.
 "Near" is a parameter. The Go test runs the library's own filter; only the
 model's check of that test's expectation (`FetchEverything.TestNewsKeepsFirst`)
 uses this stand-in, with "code-point similarity at least 0.6" as the nearness.
 */
module Dedup {
  import opened Models
  import opened Similarity

  /** "Title `b` is a near duplicate of the earlier title `a`". */
  type Nearness = (string, string) -> bool

  /**
   Near when the code-point similarity reaches `threshold`. The relation does not
   depend on which title came first, and a threshold of at most 1 makes every
   title near itself.
   */
  function SimilarAtLeast(threshold: real, subCost: nat): (near: Nearness)
    ensures forall a, b :: near(a, b) == near(b, a)
    ensures threshold <= 1.0 ==> forall a :: near(a, a)
  {
    RuneSimilaritySymmetricAll(subCost);
    RuneSimilaritySelfAll(subCost);
    (a, b) => RuneSimilarity(a, b, subCost) >= threshold
  }

  predicate NearDuplicateOfKept(kept: seq<NewsArticle>, x: NewsArticle, near: Nearness)
  {
    exists k :: 0 <= k < |kept| && near(kept[k].title, x.title)
  }

  /** No later title is near an earlier one. */
  predicate PairwiseDistinct(xs: seq<NewsArticle>, near: Nearness)
  {
    forall i, j :: 0 <= i < j < |xs| ==> !near(xs[i].title, xs[j].title)
  }

  function KeepFirst(articles: seq<NewsArticle>, near: Nearness): (r: seq<NewsArticle>)
    ensures |r| <= |articles|
    ensures forall i :: 0 <= i < |r| ==> r[i] in articles
    ensures |articles| > 0 ==> |r| > 0 && r[0] == articles[0]
    decreases |articles|
  {
    if |articles| == 0 then []
    else
      var init := articles[..|articles| - 1];
      var kept := KeepFirst(init, near);
      var x := articles[|articles| - 1];
      if NearDuplicateOfKept(kept, x, near) then kept else kept + [x]
  }

  /** No kept title is near an earlier kept title. */
  lemma {:induction false} KeepFirstDistinct(articles: seq<NewsArticle>, near: Nearness)
    ensures PairwiseDistinct(KeepFirst(articles, near), near)
    decreases |articles|
  {
    if |articles| > 0 {
      KeepFirstDistinct(articles[..|articles| - 1], near);
    }
  }

  /** Every input article is either kept or near a kept title. */
  lemma {:induction false} KeepFirstCovers(articles: seq<NewsArticle>, near: Nearness)
    ensures forall i :: 0 <= i < |articles| ==>
              articles[i] in KeepFirst(articles, near)
              || NearDuplicateOfKept(KeepFirst(articles, near), articles[i], near)
    decreases |articles|
  {
    if |articles| > 0 {
      var init := articles[..|articles| - 1];
      var kept := KeepFirst(init, near);
      var r := KeepFirst(articles, near);
      KeepFirstCovers(init, near);
      forall i | 0 <= i < |articles|
        ensures articles[i] in r || NearDuplicateOfKept(r, articles[i], near)
      {
        if i < |init| {
          assert articles[i] == init[i];
          if articles[i] !in kept {
            var k :| 0 <= k < |kept| && near(kept[k].title, articles[i].title);
            assert r[k] == kept[k];
          }
        }
      }
    }
  }

  lemma DistinctPrefix(xs: seq<NewsArticle>, near: Nearness)
    requires |xs| > 0 && PairwiseDistinct(xs, near)
    ensures PairwiseDistinct(xs[..|xs| - 1], near)
    ensures !NearDuplicateOfKept(xs[..|xs| - 1], xs[|xs| - 1], near)
  {
    var init := xs[..|xs| - 1];
    forall i, j | 0 <= i < j < |init| ensures !near(init[i].title, init[j].title) {
      assert init[i] == xs[i] && init[j] == xs[j];
    }
    forall k | 0 <= k < |init| ensures !near(init[k].title, xs[|xs| - 1].title) {
      assert init[k] == xs[k];
    }
  }

  lemma KeepFirstAppendsFresh(xs: seq<NewsArticle>, near: Nearness)
    requires |xs| > 0
    requires !NearDuplicateOfKept(KeepFirst(xs[..|xs| - 1], near), xs[|xs| - 1], near)
    ensures KeepFirst(xs, near) == KeepFirst(xs[..|xs| - 1], near) + [xs[|xs| - 1]]
  {
  }

  /** A list that is already pairwise distinct passes through unchanged. */
  lemma {:induction false} KeepFirstOfDistinct(xs: seq<NewsArticle>, near: Nearness)
    requires PairwiseDistinct(xs, near)
    ensures KeepFirst(xs, near) == xs
    decreases |xs|
  {
    if |xs| > 0 {
      var init, last := xs[..|xs| - 1], xs[|xs| - 1];
      DistinctPrefix(xs, near);
      KeepFirstOfDistinct(init, near);
      KeepFirstAppendsFresh(xs, near);
      assert xs == init + [last];
    }
  }

  /** Filtering twice gives what filtering once gives. */
  lemma {:induction false} KeepFirstIdempotent(articles: seq<NewsArticle>, near: Nearness)
    ensures KeepFirst(KeepFirst(articles, near), near) == KeepFirst(articles, near)
  {
    KeepFirstDistinct(articles, near);
    KeepFirstOfDistinct(KeepFirst(articles, near), near);
  }
}
