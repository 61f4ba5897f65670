/**
 * The read path of services.py: the global feed (top three per category,
 * merged and paged in memory), the category page, the related articles,
 * and the merged text search.
 */
module Queries {
  import opened Wrappers
  import opened Categories
  import opened StableSort
  import opened Slicing
  import opened Store

  type Collections = map<string, seq<Article>>

  function PublishedAt(a: Article): int { a.publishedAt }

  /** `x.get('score', 0)`. */
  function ScoreOrZero(a: Article): int { a.score.GetOr(0) }

  /** `find().sort('publishedAt', -1)`: newest first, ties in stored order. */
  function Newest(c: seq<Article>): (r: seq<Article>)
    ensures multiset(r) == multiset(c)
    ensures NonIncreasing(r, PublishedAt)
  {
    SortDescSorted(c, PublishedAt);
    SortDesc(c, PublishedAt)
  }

  /** Sorting newest first neither adds nor drops a document. */
  lemma NewestMembers(c: seq<Article>)
    ensures forall x :: x in Newest(c) <==> x in c
  {
    assert forall x :: x in Newest(c) <==> x in multiset(Newest(c));
  }

  // ---------------------------------------------------------------- global feed

  /** The three most recent articles of category `i`. */
  function TopThree(cols: Collections, i: nat): (r: seq<Article>)
    requires i < |CategoryNames|
    ensures |r| == Min(3, |Coll(cols, CategoryCollection(i))|)
    ensures r <= Newest(Coll(cols, CategoryCollection(i)))
  {
    Take(Newest(Coll(cols, CategoryCollection(i))), 3)
  }

  /** The candidates gathered from the first `n` categories, in category order. */
  function PoolUpTo(cols: Collections, n: nat): (r: seq<Article>)
    requires n <= |CategoryNames|
  {
    if n == 0 then [] else PoolUpTo(cols, n - 1) + TopThree(cols, n - 1)
  }

  function Pool(cols: Collections): seq<Article> {
    PoolUpTo(cols, |CategoryNames|)
  }

  /** `all.sort(key=publishedAt, reverse=True)` then `all[start:start + perPage]`. */
  function SortedPage(all: seq<Article>, page: int, perPage: int): seq<Article> {
    var start := PageSkip(page, perPage);
    PySlice(SortDesc(all, PublishedAt), start, start + perPage)
  }

  /** A page of `all` holds only members of `all`, and no more of them than `all` has. */
  lemma SortedPageMembers(all: seq<Article>, page: int, perPage: int)
    ensures |SortedPage(all, page, perPage)| <= |all|
    ensures forall x :: x in SortedPage(all, page, perPage) ==> x in all
  {
    var sorted := SortDesc(all, PublishedAt);
    assert forall x :: x in sorted ==> x in multiset(sorted);
  }

  /** The merged candidates, newest first, sliced to the requested page. */
  function GlobalFeed(cols: Collections, page: int, perPage: int): (r: seq<Article>)
    ensures |r| <= 18
    ensures forall x :: x in r ==> x in Pool(cols)
  {
    PoolSize(cols);
    SortedPageMembers(Pool(cols), page, perPage);
    SortedPage(Pool(cols), page, perPage)
  }

  /** `get_articles_from_db` (services.py:91-103). */
  method GetArticles(db: Database, page: int, perPage: int) returns (r: seq<Article>)
    ensures r == GlobalFeed(db.collections, page, perPage)
  {
    var all := GatherTopThree(db);
    all := SortDesc(all, PublishedAt);
    var start := PageSkip(page, perPage);
    r := PySlice(all, start, start + perPage);
  }

  /** The gathering loop of `get_articles_from_db`: the three newest of each category, in table order. */
  method GatherTopThree(db: Database) returns (all: seq<Article>)
    ensures all == Pool(db.collections)
  {
    all := [];
    var i := 0;
    while i < |CategoryNames|
      invariant 0 <= i <= |CategoryNames|
      invariant all == PoolUpTo(db.collections, i)
    {
      var newest := TopThree(db.collections, i);
      all := all + newest;
      i := i + 1;
    }
  }

  lemma {:induction false} PoolUpToSize(cols: Collections, n: nat)
    requires n <= |CategoryNames|
    ensures |PoolUpTo(cols, n)| <= 3 * n
  {
    if n > 0 {
      PoolUpToSize(cols, n - 1);
    }
  }

  /** An article is a candidate exactly when it is among the three newest of some category. */
  lemma {:induction false} PoolUpToMembers(cols: Collections, n: nat, x: Article)
    requires n <= |CategoryNames|
    ensures x in PoolUpTo(cols, n) <==> exists i :: 0 <= i < n && x in TopThree(cols, i)
  {
    if n > 0 {
      PoolUpToMembers(cols, n - 1, x);
      var prev, last := PoolUpTo(cols, n - 1), TopThree(cols, n - 1);
      assert x in prev + last <==> x in prev || x in last;
      if x in last {
        assert 0 <= n - 1 < n && x in TopThree(cols, n - 1);
      }
      if exists i :: 0 <= i < n && x in TopThree(cols, i) {
        var i :| 0 <= i < n && x in TopThree(cols, i);
        if i < n - 1 {
          assert x in prev;
        }
      }
    }
  }

  /** At most eighteen candidates. */
  lemma PoolSize(cols: Collections)
    ensures |Pool(cols)| <= 18
  {
    PoolUpToSize(cols, |CategoryNames|);
  }

  /** The slice bounds of a page are those of an ordinary slice. */
  lemma PageStart(page: int, perPage: int)
    ensures page >= 1 && perPage >= 1 ==> 0 <= (page - 1) * perPage
  {
    if page >= 1 && perPage >= 1 {
      var k: nat, n: nat := page - 1, perPage;
      assert k * n >= 0;
    }
  }

  /** The slice of a sequence from a non-negative start. */
  lemma SliceFrom(sorted: seq<Article>, start: int, perPage: int)
    requires start >= 0 && perPage >= 1
    ensures PySlice(sorted, start, start + perPage) == sorted[Min(start, |sorted|)..Min(start + perPage, |sorted|)]
    ensures |PySlice(sorted, start, start + perPage)| <= perPage
    ensures start >= |sorted| ==> PySlice(sorted, start, start + perPage) == []
  {
  }

  /** A page of the sorted candidates: at most `perPage` of them, newest first, and none past the end. */
  lemma SortedPageBounds(all: seq<Article>, page: int, perPage: int)
    requires page >= 1 && perPage >= 1
    ensures |SortedPage(all, page, perPage)| <= perPage
    ensures NonIncreasing(SortedPage(all, page, perPage), PublishedAt)
    ensures PageSkip(page, perPage) >= |all| ==> SortedPage(all, page, perPage) == []
  {
    var sorted := SortDesc(all, PublishedAt);
    SortDescSorted(all, PublishedAt);
    var start := PageSkip(page, perPage);
    PageStart(page, perPage);
    SliceFrom(sorted, start, perPage);
    SliceSorted(sorted, Min(start, |sorted|), Min(start + perPage, |sorted|));
  }

  /** A global feed page holds at most `perPage` articles, newest first. */
  lemma GlobalFeedPage(cols: Collections, page: int, perPage: int)
    requires page >= 1 && perPage >= 1
    ensures |GlobalFeed(cols, page, perPage)| <= perPage
    ensures NonIncreasing(GlobalFeed(cols, page, perPage), PublishedAt)
  {
    SortedPageBounds(Pool(cols), page, perPage);
  }

  /** A slice of a newest-first sequence is newest first. */
  lemma SliceSorted(s: seq<Article>, lo: nat, hi: nat)
    requires lo <= hi <= |s|
    requires NonIncreasing(s, PublishedAt)
    ensures NonIncreasing(s[lo..hi], PublishedAt)
  {
    var r := s[lo..hi];
    forall a, b | 0 <= a < b < |r| ensures PublishedAt(r[a]) >= PublishedAt(r[b]) {
      assert r[a] == s[lo + a] && r[b] == s[lo + b];
    }
  }

  /** Every article on any page is among the three newest of its own category. */
  lemma GlobalFeedFromTopThree(cols: Collections, page: int, perPage: int, x: Article)
    ensures x in GlobalFeed(cols, page, perPage) ==> exists i :: 0 <= i < |CategoryNames| && x in TopThree(cols, i)
  {
    PoolUpToMembers(cols, |CategoryNames|, x);
  }

  /** A page starting at or past the candidate count is empty; in particular any page starting at 18 or later. */
  lemma GlobalFeedBeyondPool(cols: Collections, page: int, perPage: int)
    requires page >= 1 && perPage >= 1
    requires (page - 1) * perPage >= |Pool(cols)|
    ensures GlobalFeed(cols, page, perPage) == []
  {
    SortedPageBounds(Pool(cols), page, perPage);
  }

  lemma GlobalFeedPastEighteen(cols: Collections, page: int, perPage: int)
    requires page >= 1 && perPage >= 1
    requires (page - 1) * perPage >= 18
    ensures GlobalFeed(cols, page, perPage) == []
  {
    PoolSize(cols);
    GlobalFeedBeyondPool(cols, page, perPage);
  }

  // -------------------------------------------------------------- category page

  /** `find().sort('publishedAt', -1).skip((page - 1) * perPage).limit(perPage)`; a negative skip raises, answered by `[]`. */
  function CategoryPage(cols: Collections, category: string, page: int, perPage: int): (r: seq<Article>)
    ensures PageSkip(page, perPage) < 0 ==> r == []
    ensures perPage > 0 ==> |r| <= perPage
    ensures forall x :: x in r ==> x in Coll(cols, CollectionName(category))
  {
    var skip := PageSkip(page, perPage);
    NewestMembers(Coll(cols, CollectionName(category)));
    if skip < 0 then [] else MongoLimit(Drop(Newest(Coll(cols, CollectionName(category))), skip), perPage)
  }

  /** `(page - 1) * perPage`, the number of documents skipped before a page. */
  function PageSkip(page: int, perPage: int): (r: int)
    ensures page >= 1 && perPage >= 1 ==> r >= 0
  {
    PageStart(page, perPage);
    (page - 1) * perPage
  }

  lemma SkipLimit(sorted: seq<Article>, skip: int, perPage: int)
    requires skip >= 0 && perPage >= 1
    ensures MongoLimit(Drop(sorted, skip), perPage) == sorted[Min(skip, |sorted|)..Min(skip + perPage, |sorted|)]
  {
  }

  /**
   * A category page is the slice `[(page-1)*perPage, (page-1)*perPage + perPage)`
   * of the collection sorted newest first.
   */
  lemma CategoryPageSlice(cols: Collections, category: string, page: int, perPage: int)
    requires page >= 1 && perPage >= 1
    ensures var sorted := Newest(Coll(cols, CollectionName(category)));
      var skip := PageSkip(page, perPage);
      CategoryPage(cols, category, page, perPage) == sorted[Min(skip, |sorted|)..Min(skip + perPage, |sorted|)]
  {
    SkipLimit(Newest(Coll(cols, CollectionName(category))), PageSkip(page, perPage), perPage);
  }

  /** So a category page holds at most `perPage` articles, newest first. */
  lemma CategoryPageOrder(cols: Collections, category: string, page: int, perPage: int)
    requires page >= 1 && perPage >= 1
    ensures |CategoryPage(cols, category, page, perPage)| <= perPage
    ensures NonIncreasing(CategoryPage(cols, category, page, perPage), PublishedAt)
  {
    var sorted := Newest(Coll(cols, CollectionName(category)));
    var skip := PageSkip(page, perPage);
    CategoryPageSlice(cols, category, page, perPage);
    SliceSorted(sorted, Min(skip, |sorted|), Min(skip + perPage, |sorted|));
  }

  lemma TakeSplit(sorted: seq<Article>, skip: int, perPage: int)
    requires skip >= 0 && perPage >= 1
    ensures Take(sorted, skip + perPage) == Take(sorted, skip) + sorted[Min(skip, |sorted|)..Min(skip + perPage, |sorted|)]
  {
    var lo, hi := Min(skip, |sorted|), Min(skip + perPage, |sorted|);
    assert sorted[..hi] == sorted[..lo] + sorted[lo..hi];
  }

  lemma NextPageStart(page: int, perPage: int)
    ensures page * perPage == (page - 1) * perPage + perPage
  {
  }

  /** Consecutive pages tile the sorted collection: pages 1..p together are its first p*perPage articles. */
  lemma CategoryPagesTile(cols: Collections, category: string, page: int, perPage: int)
    requires page >= 1 && perPage >= 1
    ensures var sorted := Newest(Coll(cols, CollectionName(category)));
      Take(sorted, page * perPage) == Take(sorted, (page - 1) * perPage) + CategoryPage(cols, category, page, perPage)
  {
    var sorted := Newest(Coll(cols, CollectionName(category)));
    var skip := PageSkip(page, perPage);
    NextPageStart(page, perPage);
    CategoryPageSlice(cols, category, page, perPage);
    TakeSplit(sorted, skip, perPage);
  }

  // ----------------------------------------------------------------- related

  /** `find({'_id': {'$ne': id}})`. */
  function OtherThan(c: seq<Article>, id: nat): (r: seq<Article>)
    ensures forall x :: x in r ==> x in c && x.id != id
    ensures forall x :: x in c && x.id != id ==> x in r
  {
    if c == [] then []
    else (if c[0].id == id then [] else [c[0]]) + OtherThan(c[1..], id)
  }

  /** `get_related_articles_from_db`: the newest `count` articles of the category other than `id`. */
  function Related(cols: Collections, category: string, id: nat, count: int): (r: seq<Article>)
    ensures forall x :: x in r ==> x.id != id && x in Coll(cols, CollectionName(category))
  {
    NewestMembers(OtherThan(Coll(cols, CollectionName(category)), id));
    MongoLimit(Newest(OtherThan(Coll(cols, CollectionName(category)), id)), count)
  }

  /**
   * The related articles: never the article itself, all from the category's
   * collection, newest first, and the `count` newest of the others.
   */
  lemma RelatedProperties(cols: Collections, category: string, id: nat, count: int)
    requires count >= 1
    ensures var c := Coll(cols, CollectionName(category));
      var r := Related(cols, category, id, count);
      |r| == Min(count, |OtherThan(c, id)|) &&
      r <= Newest(OtherThan(c, id)) &&
      NonIncreasing(r, PublishedAt) &&
      forall x :: x in r ==> x.id != id && x in c
  {
    var c := Coll(cols, CollectionName(category));
    var sorted := Newest(OtherThan(c, id));
    var r := Related(cols, category, id, count);
    SliceSorted(sorted, 0, |r|);
    assert r == sorted[0..|r|];
    forall x | x in r ensures x.id != id && x in c {
      assert x in multiset(sorted);
    }
  }

  // ------------------------------------------------------------------ search

  /** The documents of one collection that match the text query. */
  function Matching(c: seq<Article>, matches: Article -> bool): (r: seq<Article>)
    ensures forall x :: x in r ==> x in c && matches(x)
    ensures forall x :: x in c && matches(x) ==> x in r
    ensures |r| <= |c|
  {
    if c == [] then []
    else
      assert forall x :: x in c ==> x == c[0] || x in c[1..];
      (if matches(c[0]) then [c[0]] else []) + Matching(c[1..], matches)
  }

  /** The filter works piece by piece, so the matches keep their stored order. */
  lemma {:induction false} MatchingAppend(a: seq<Article>, b: seq<Article>, matches: Article -> bool)
    ensures Matching(a + b, matches) == Matching(a, matches) + Matching(b, matches)
  {
    if a != [] {
      assert (a + b)[0] == a[0];
      assert (a + b)[1..] == a[1..] + b;
      MatchingAppend(a[1..], b, matches);
    } else {
      assert a + b == b;
    }
  }

  /** The matches of the first `n` categories, concatenated in category order. */
  function SearchPoolUpTo(cols: Collections, matches: Article -> bool, n: nat): seq<Article>
    requires n <= |CategoryNames|
  {
    if n == 0 then [] else SearchPoolUpTo(cols, matches, n - 1) + Matching(Coll(cols, CategoryCollection(n - 1)), matches)
  }

  function SearchPool(cols: Collections, matches: Article -> bool): seq<Article> {
    SearchPoolUpTo(cols, matches, |CategoryNames|)
  }

  /** `search_results.sort(key=lambda x: x.get('score', 0), reverse=True)`. */
  function SearchResults(cols: Collections, matches: Article -> bool): (r: seq<Article>)
    ensures multiset(r) == multiset(SearchPool(cols, matches))
    ensures NonIncreasing(r, ScoreOrZero)
  {
    SortDescSorted(SearchPool(cols, matches), ScoreOrZero);
    SortDesc(SearchPool(cols, matches), ScoreOrZero)
  }

  /** `search_articles_in_db` (services.py:129-139). */
  method SearchArticles(db: Database, matches: Article -> bool) returns (r: seq<Article>)
    ensures r == SearchResults(db.collections, matches)
  {
    var results: seq<Article> := [];
    var i := 0;
    while i < |CategoryNames|
      invariant 0 <= i <= |CategoryNames|
      invariant results == SearchPoolUpTo(db.collections, matches, i)
    {
      results := results + Matching(Coll(db.collections, CollectionName(CategoryNames[i])), matches);
      i := i + 1;
    }
    r := SortDesc(results, ScoreOrZero);
  }

  /**
   * The results are the per-category matches reordered: a permutation of
   * them, highest score first (absent scores counting as 0), and, for every
   * score, the articles with that score in category-loop order.
   */
  lemma SearchResultsOrder(cols: Collections, matches: Article -> bool)
    ensures multiset(SearchResults(cols, matches)) == multiset(SearchPool(cols, matches))
    ensures NonIncreasing(SearchResults(cols, matches), ScoreOrZero)
    ensures forall k :: WithKey(SearchResults(cols, matches), ScoreOrZero, k) == WithKey(SearchPool(cols, matches), ScoreOrZero, k)
  {
    SortDescSorted(SearchPool(cols, matches), ScoreOrZero);
    forall k ensures WithKey(SearchResults(cols, matches), ScoreOrZero, k) == WithKey(SearchPool(cols, matches), ScoreOrZero, k) {
      SortDescStable(SearchPool(cols, matches), ScoreOrZero, k);
    }
  }

  /** When no document carries a `score` field, the results are the matches in category-loop order. */
  lemma SearchWithoutScores(cols: Collections, matches: Article -> bool)
    requires forall x :: x in SearchPool(cols, matches) ==> x.score.None?
    ensures SearchResults(cols, matches) == SearchPool(cols, matches)
  {
    SortDescConstantKey(SearchPool(cols, matches), ScoreOrZero, 0);
  }

  /** Every result matches the query and comes from one of the category collections. */
  lemma {:induction false} SearchPoolMembers(cols: Collections, matches: Article -> bool, n: nat, x: Article)
    requires n <= |CategoryNames|
    requires x in SearchPoolUpTo(cols, matches, n)
    ensures matches(x) && exists i :: 0 <= i < n && x in Coll(cols, CategoryCollection(i))
  {
    var prev, last := SearchPoolUpTo(cols, matches, n - 1), Matching(Coll(cols, CategoryCollection(n - 1)), matches);
    assert x in prev + last;
    if x in prev {
      SearchPoolMembers(cols, matches, n - 1, x);
      var i :| 0 <= i < n - 1 && x in Coll(cols, CategoryCollection(i));
      assert 0 <= i < n;
    } else {
      assert x in Coll(cols, CategoryCollection(n - 1));
    }
  }
}
