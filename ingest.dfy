/**
 * The ingestion endpoint `generate_and_save_articles`: fetch the newest item
 * of each category, have the text model rewrite it, and save each rewrite
 * that has a title, counting the saves that succeed.
 *
 * The loop is specified by a fold over the fetched items. The fold takes the
 * slug rule as a parameter, so the properties proved about it hold whatever
 * the slug rule is; the endpoint runs it with `Slugify`.
 */
module Ingest {
  import opened Wrappers
  import opened Categories
  import opened Slug
  import opened Store
  import opened Feed

  /**
   * The text model, as an input: the rewrite answered to the `j`-th call
   * for this body and headline, or None when the call or the JSON parse
   * failed.
   */
  type Rewriter = (nat, string, string) -> Option<Rewrite>

  /** A rule deriving a slug from a title. */
  type SlugRule = string -> string

  /** The article collections and the id counter, with the number of saves so far. */
  datatype Ingested = Ingested(cols: map<string, seq<Article>>, nextId: nat, count: nat)

  /** `generated_article and 'title' in generated_article`. */
  predicate HasTitle(g: Option<Rewrite>) { g.Some? && g.value.title.Some? }

  function TitleOf(g: Option<Rewrite>): string
    requires HasTitle(g)
  {
    g.value.title.value
  }

  /** The rewrite answered for the `j`-th item. */
  function RewriteOf(items: seq<RawItem>, rewrite: Rewriter, j: nat): Option<Rewrite>
    requires j < |items|
  {
    rewrite(j, items[j].body, items[j].headline)
  }

  /**
   * The document saved for `item`: the rewrite's title and content, the
   * item's category, the slug of the title, the item's thumbnail as the
   * image and the time stamp.
   */
  function Doc(id: nat, item: RawItem, g: Option<Rewrite>, now: int, slugOf: SlugRule): Article
    requires HasTitle(g)
  {
    Article(id, g.value.title, g.value.content, item.category, slugOf(TitleOf(g)), item.thumbnail, now, None)
  }

  /** The save succeeds: there is a title and its slug is not yet taken in the item's category. */
  predicate Saves(cols: map<string, seq<Article>>, item: RawItem, g: Option<Rewrite>, slugOf: SlugRule)
  {
    HasTitle(g) && FindBySlug(Coll(cols, CollectionName(item.category)), slugOf(TitleOf(g))).None?
  }

  /** One pass of the loop's body. */
  function SaveStep(s: Ingested, item: RawItem, g: Option<Rewrite>, now: int, slugOf: SlugRule): Ingested
  {
    if Saves(s.cols, item, g, slugOf) then
      var name := CollectionName(item.category);
      Ingested(s.cols[name := Coll(s.cols, name) + [Doc(s.nextId, item, g, now, slugOf)]], s.nextId + 1, s.count + 1)
    else s
  }

  /**
   * The state after the first `k` items: at most one save per item, and
   * each save takes one identifier.
   */
  function IngestUpTo(s0: Ingested, items: seq<RawItem>, rewrite: Rewriter, clock: nat -> int, slugOf: SlugRule, k: nat)
    : (r: Ingested)
    requires k <= |items|
    ensures s0.count <= r.count <= s0.count + k
    ensures r.nextId + s0.count == s0.nextId + r.count
  {
    if k == 0 then s0
    else
      var j := k - 1;
      SaveStep(IngestUpTo(s0, items, rewrite, clock, slugOf, j), items[j], RewriteOf(items, rewrite, j), clock(j), slugOf)
  }

  /**
   * The count goes up by one exactly when the rewrite has a title and the
   * save succeeds; otherwise nothing changes.
   */
  lemma StepCounts(s: Ingested, item: RawItem, g: Option<Rewrite>, now: int, slugOf: SlugRule)
    ensures SaveStep(s, item, g, now, slugOf).count == s.count + 1 <==>
      HasTitle(g) && FindBySlug(Coll(s.cols, CollectionName(item.category)), slugOf(TitleOf(g))).None?
    ensures SaveStep(s, item, g, now, slugOf).count != s.count + 1 ==> SaveStep(s, item, g, now, slugOf) == s
  {
  }

  /** What one pass appends to collection `n`: the new document, or nothing. */
  function StepDocs(s: Ingested, item: RawItem, g: Option<Rewrite>, now: int, slugOf: SlugRule, n: string): seq<Article>
  {
    if Saves(s.cols, item, g, slugOf) && n == CollectionName(item.category)
    then [Doc(s.nextId, item, g, now, slugOf)]
    else []
  }

  /** One pass keeps every collection and appends at most the new document to one of them. */
  lemma StepAppends(s: Ingested, item: RawItem, g: Option<Rewrite>, now: int, slugOf: SlugRule, n: string)
    ensures n in s.cols ==> n in SaveStep(s, item, g, now, slugOf).cols
    ensures Coll(SaveStep(s, item, g, now, slugOf).cols, n) == Coll(s.cols, n) + StepDocs(s, item, g, now, slugOf, n)
  {
  }

  /** Ingestion only appends: a collection after `j` items is a prefix of the same collection after `k`. */
  lemma {:induction false} IngestGrows(s0: Ingested, items: seq<RawItem>, rewrite: Rewriter, clock: nat -> int,
                                       slugOf: SlugRule, j: nat, k: nat, n: string)
    requires j <= k <= |items|
    ensures n in IngestUpTo(s0, items, rewrite, clock, slugOf, j).cols ==> n in IngestUpTo(s0, items, rewrite, clock, slugOf, k).cols
    ensures Coll(IngestUpTo(s0, items, rewrite, clock, slugOf, j).cols, n) <= Coll(IngestUpTo(s0, items, rewrite, clock, slugOf, k).cols, n)
  {
    if j < k {
      IngestGrows(s0, items, rewrite, clock, slugOf, j, k - 1, n);
      var p := IngestUpTo(s0, items, rewrite, clock, slugOf, k - 1);
      StepAppends(p, items[k - 1], RewriteOf(items, rewrite, k - 1), clock(k - 1), slugOf, n);
    }
  }

  /** `x` is the document saved for `item` in collection `name`. */
  predicate FromItem(x: Article, name: string, item: RawItem, g: Option<Rewrite>, now: int, slugOf: SlugRule)
  {
    HasTitle(g) && name == CollectionName(item.category) && x == Doc(x.id, item, g, now, slugOf)
  }

  /**
   * Each document past the old prefix of a collection was saved for one of
   * the items, in that item's category collection, with the rewrite's
   * title and content and the item's thumbnail as its `imageUrl`.
   */
  lemma {:induction false} IngestProvenance(s0: Ingested, items: seq<RawItem>, rewrite: Rewriter, clock: nat -> int,
                                            slugOf: SlugRule, k: nat, n: string, x: Article)
    requires k <= |items|
    requires |Coll(s0.cols, n)| <= |Coll(IngestUpTo(s0, items, rewrite, clock, slugOf, k).cols, n)|
    requires x in Coll(IngestUpTo(s0, items, rewrite, clock, slugOf, k).cols, n)[|Coll(s0.cols, n)|..]
    ensures exists j :: 0 <= j < k && FromItem(x, n, items[j], RewriteOf(items, rewrite, j), clock(j), slugOf)
    ensures exists j :: 0 <= j < k && x.imageUrl == items[j].thumbnail
  {
    var j := k - 1;
    var p := IngestUpTo(s0, items, rewrite, clock, slugOf, j);
    var g := RewriteOf(items, rewrite, j);
    IngestGrows(s0, items, rewrite, clock, slugOf, 0, j, n);
    StepAppends(p, items[j], g, clock(j), slugOf, n);
    var lo := |Coll(s0.cols, n)|;
    var e := StepDocs(p, items[j], g, clock(j), slugOf, n);
    assert Coll(IngestUpTo(s0, items, rewrite, clock, slugOf, k).cols, n)[lo..] == Coll(p.cols, n)[lo..] + e;
    if x in e {
      assert FromItem(x, n, items[j], g, clock(j), slugOf);
    } else {
      IngestProvenance(s0, items, rewrite, clock, slugOf, j, n, x);
    }
  }

  /** After a pass over an item whose rewrite has a title, its slug is taken in its category. */
  lemma StepCovers(s: Ingested, item: RawItem, g: Option<Rewrite>, now: int, slugOf: SlugRule)
    requires HasTitle(g)
    ensures FindBySlug(Coll(SaveStep(s, item, g, now, slugOf).cols, CollectionName(item.category)), slugOf(TitleOf(g))).Some?
  {
    var name := CollectionName(item.category);
    if Saves(s.cols, item, g, slugOf) {
      var doc := Doc(s.nextId, item, g, now, slugOf);
      assert doc in Coll(SaveStep(s, item, g, now, slugOf).cols, name);
    }
  }

  /** A slug taken in a prefix is taken in the whole collection. */
  lemma FindInLonger(c: seq<Article>, d: seq<Article>, slug: string)
    requires c <= d && FindBySlug(c, slug).Some?
    ensures FindBySlug(d, slug).Some?
  {
    var a := FindBySlug(c, slug).value;
    assert a in d;
  }

  /**
   * The loop has no early exit: after `k` items, every one of them whose
   * rewrite has a title has its slug taken in its category's collection,
   * whether it was saved by this run or was already there.
   */
  lemma IngestCovers(s0: Ingested, items: seq<RawItem>, rewrite: Rewriter, clock: nat -> int,
                     slugOf: SlugRule, k: nat, j: nat)
    requires j < k <= |items| && HasTitle(RewriteOf(items, rewrite, j))
    ensures FindBySlug(Coll(IngestUpTo(s0, items, rewrite, clock, slugOf, k).cols, CollectionName(items[j].category)),
                       slugOf(TitleOf(RewriteOf(items, rewrite, j)))).Some?
  {
    var name := CollectionName(items[j].category);
    var p := IngestUpTo(s0, items, rewrite, clock, slugOf, j);
    StepCovers(p, items[j], RewriteOf(items, rewrite, j), clock(j), slugOf);
    IngestGrows(s0, items, rewrite, clock, slugOf, j + 1, k, name);
    FindInLonger(Coll(IngestUpTo(s0, items, rewrite, clock, slugOf, j + 1).cols, name),
                 Coll(IngestUpTo(s0, items, rewrite, clock, slugOf, k).cols, name),
                 slugOf(TitleOf(RewriteOf(items, rewrite, j))));
  }

  /** Every item is tagged with a category display name, as the feed's items are. */
  predicate Categorised(items: seq<RawItem>) {
    forall a :: 0 <= a < |items| ==> items[a].category in CategoryNames
  }

  /** The collection of a display name is that category's collection. */
  lemma CollectionOfCategory(category: string)
    requires category in CategoryNames
    ensures 0 <= IndexOf(category) && CollectionName(category) == CategoryCollection(IndexOf(category))
    ensures AmongFirst(CollectionName(category), |CategoryNames|)
  {
    IndexOfFound(category);
    AmongAll(IndexOf(category), |CategoryNames|);
  }

  /** A pass over an item of a category adds its save, if any, to the category total. */
  lemma StepTotal(s: Ingested, item: RawItem, g: Option<Rewrite>, now: int, slugOf: SlugRule)
    requires item.category in CategoryNames
    ensures CategoryTotal(SaveStep(s, item, g, now, slugOf).cols) + s.count ==
            CategoryTotal(s.cols) + SaveStep(s, item, g, now, slugOf).count
  {
    if Saves(s.cols, item, g, slugOf) {
      CollectionOfCategory(item.category);
      SizesUpToAppend(s.cols, IndexOf(item.category), |CategoryNames|, Doc(s.nextId, item, g, now, slugOf));
    }
  }

  /** A pass over an item of a category leaves the collections outside the table alone. */
  lemma StepOthers(s: Ingested, item: RawItem, g: Option<Rewrite>, now: int, slugOf: SlugRule, n: string)
    requires item.category in CategoryNames && !AmongFirst(n, |CategoryNames|)
    ensures Coll(SaveStep(s, item, g, now, slugOf).cols, n) == Coll(s.cols, n)
  {
    CollectionOfCategory(item.category);
    StepAppends(s, item, g, now, slugOf, n);
  }

  /** Over categorised items, the category total grows by the number of saves. */
  lemma {:induction false} IngestTotal(s0: Ingested, items: seq<RawItem>, rewrite: Rewriter, clock: nat -> int,
                                       slugOf: SlugRule, k: nat)
    requires k <= |items| && Categorised(items)
    ensures CategoryTotal(IngestUpTo(s0, items, rewrite, clock, slugOf, k).cols) + s0.count ==
            CategoryTotal(s0.cols) + IngestUpTo(s0, items, rewrite, clock, slugOf, k).count
  {
    if k > 0 {
      var j := k - 1;
      IngestTotal(s0, items, rewrite, clock, slugOf, j);
      StepTotal(IngestUpTo(s0, items, rewrite, clock, slugOf, j), items[j], RewriteOf(items, rewrite, j), clock(j), slugOf);
    }
  }

  /** Over categorised items, only category collections change. */
  lemma {:induction false} IngestOthers(s0: Ingested, items: seq<RawItem>, rewrite: Rewriter, clock: nat -> int,
                                        slugOf: SlugRule, k: nat, n: string)
    requires k <= |items| && Categorised(items) && !AmongFirst(n, |CategoryNames|)
    ensures Coll(IngestUpTo(s0, items, rewrite, clock, slugOf, k).cols, n) == Coll(s0.cols, n)
  {
    if k > 0 {
      var j := k - 1;
      IngestOthers(s0, items, rewrite, clock, slugOf, j, n);
      StepOthers(IngestUpTo(s0, items, rewrite, clock, slugOf, j), items[j], RewriteOf(items, rewrite, j), clock(j), slugOf, n);
    }
  }

  /** The answer of the ingestion endpoint. */
  datatype IngestReply = ServerError | NothingToProcess | Generated(count: nat)

  /**
   * `generate_and_save_articles` (app.py:79-92). The feed's answers, the
   * text model and the clock are inputs; the `j`-th save is stamped `clock(j)`.
   */
  method GenerateAndSave(db: Database, responses: seq<FeedResponse>, rewrite: Rewriter, clock: nat -> int)
    returns (reply: IngestReply)
    requires db.Valid() && |responses| == |CategoryNames|
    modifies db
    ensures db.Valid()
    ensures db.subscribers == old(db.subscribers)
    ensures reply.ServerError? <==> FetchAll(responses).Raised?
    ensures reply.NothingToProcess? <==> FetchAll(responses) == Fetched([])
    ensures !reply.Generated? ==> db.collections == old(db.collections) && db.nextId == old(db.nextId)
    ensures reply.Generated? ==>
      var items := FetchAll(responses).items;
      var s := IngestUpTo(Ingested(old(db.collections), old(db.nextId), 0), items, rewrite, clock, Slugify, |items|);
      db.collections == s.cols && db.nextId == s.nextId && reply.count == s.count
  {
    var fetched := FetchArticles(responses);
    if fetched.Raised? {
      return ServerError;
    }
    var items := fetched.items;
    if items == [] {
      return NothingToProcess;
    }
    var count := IngestItems(db, items, rewrite, clock);
    reply := Generated(count);
  }

  /** The loop of `generate_and_save_articles` over the fetched items. */
  method IngestItems(db: Database, items: seq<RawItem>, rewrite: Rewriter, clock: nat -> int) returns (count: nat)
    requires db.Valid()
    modifies db
    ensures db.Valid()
    ensures db.subscribers == old(db.subscribers)
    ensures var s := IngestUpTo(Ingested(old(db.collections), old(db.nextId), 0), items, rewrite, clock, Slugify, |items|);
      db.collections == s.cols && db.nextId == s.nextId && count == s.count
  {
    ghost var s0 := Ingested(db.collections, db.nextId, 0);
    count := 0;
    var i := 0;
    while i < |items|
      invariant 0 <= i <= |items|
      invariant db.Valid() && db.subscribers == old(db.subscribers)
      invariant IngestUpTo(s0, items, rewrite, clock, Slugify, i) == Ingested(db.collections, db.nextId, count)
    {
      var item := items[i];
      count := IngestOne(db, item, rewrite(i, item.body, item.headline), clock(i), count);
      i := i + 1;
    }
  }

  /** The loop's body: save the rewrite when it has a title, and count the save when it succeeds. */
  method IngestOne(db: Database, item: RawItem, g: Option<Rewrite>, now: int, count: nat) returns (count': nat)
    requires db.Valid()
    modifies db
    ensures db.Valid() && db.subscribers == old(db.subscribers)
    ensures Ingested(db.collections, db.nextId, count') ==
            SaveStep(Ingested(old(db.collections), old(db.nextId), count), item, g, now, Slugify)
  {
    count' := count;
    if g.Some? && g.value.title.Some? {
      var r := db.SaveArticle(g.value, item.category, item.thumbnail, now);
      if r.Some? {
        count' := count + 1;
      }
    }
  }

  /**
   * What a run over the feed's items does, in sum: at most six saves, one
   * identifier per save, and the category total grown by the count.
   */
  lemma FeedIngest(cols: map<string, seq<Article>>, nextId: nat, responses: seq<FeedResponse>,
                   rewrite: Rewriter, clock: nat -> int, slugOf: SlugRule)
    requires |responses| == |CategoryNames| && FetchAll(responses).Fetched?
    ensures var items := FetchAll(responses).items;
      var r := IngestUpTo(Ingested(cols, nextId, 0), items, rewrite, clock, slugOf, |items|);
      r.count <= |items| <= |CategoryNames| &&
      r.nextId == nextId + r.count &&
      CategoryTotal(r.cols) == CategoryTotal(cols) + r.count
  {
    var items := FetchAll(responses).items;
    FetchAllOrdered(responses);
    IngestTotal(Ingested(cols, nextId, 0), items, rewrite, clock, slugOf, |items|);
  }
}
