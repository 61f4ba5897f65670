/**
 * The HTTP handlers of the API around the store: the answers of the
 * subscription, search and article-lookup endpoints.
 */
module Api {
  import opened Wrappers
  import opened Categories
  import opened Store
  import opened StableSort
  import opened Queries

  // ------------------------------------------------------------- subscribe

  /** The HTTP status answered for a `save_subscriber_to_db` outcome. */
  function SubscribeStatusCode(status: SubscribeStatus): (code: int)
    ensures code == 201 <==> status.Success?
    ensures code == 200 <==> status.Exists?
    ensures code == 500 <==> status.Error?
  {
    match status
    case Success(_) => 201
    case Exists => 200
    case Error => 500
  }

  /** `if not email`: the key is missing, null or the empty string. */
  predicate Blank(s: Option<string>) { s.None? || s.value == "" }

  /** `subscribe_to_newsletter` (app.py:60-75); `email` is the body's `email` key. */
  method Subscribe(db: Database, email: Option<string>, now: int) returns (code: int)
    requires db.Valid()
    modifies db
    ensures db.Valid()
    ensures db.collections == old(db.collections)
    ensures Blank(email) ==> code == 400 && db.subscribers == old(db.subscribers) && db.nextId == old(db.nextId)
    ensures !Blank(email) ==>
      (code == 200 <==> exists s :: s in old(db.subscribers) && s.email == email.value) &&
      (code == 200 ==> db.subscribers == old(db.subscribers)) &&
      (code != 200 ==> code == 201 && db.subscribers == old(db.subscribers) + [Subscriber(old(db.nextId), email.value, now)])
  {
    if email.None? || email.value == "" {
      return 400;
    }
    var status := db.SaveSubscriber(email.value, now);
    code := SubscribeStatusCode(status);
  }

  // ---------------------------------------------------------------- search

  /** The answer of the search endpoint. */
  datatype SearchReply = SearchReply(code: int, results: seq<Article>)

  /**
   * `search_articles` (app.py:50-56). `matcherFor(q)` is the text index's
   * match predicate for the query `q`.
   */
  method SearchEndpoint(db: Database, q: Option<string>, matcherFor: string -> (Article -> bool)) returns (reply: SearchReply)
    ensures reply.code == 400 <==> Blank(q)
    ensures reply.code == 400 ==> reply.results == []
    ensures reply.code != 400 ==> reply.code == 200 && reply.results == SearchResults(db.collections, matcherFor(q.value))
  {
    if q.None? || q.value == "" {
      return SearchReply(400, []);
    }
    var results := SearchArticles(db, matcherFor(q.value));
    reply := SearchReply(200, results);
  }

  // ---------------------------------------------------------------- lookup

  /** The answer of the article endpoint: 404, or the article with its related articles. */
  datatype LookupReply = NotFound | Found(article: Article, related: seq<Article>)

  /** `get_single_article_from_db` (services.py:105-110). */
  function SingleArticle(cols: Collections, categoryName: string, slug: string): (r: Option<Article>)
    ensures r.None? <==> forall a :: a in Coll(cols, CollectionName(categoryName)) ==> a.slug != slug
    ensures r.Some? ==> r.value in Coll(cols, CollectionName(categoryName)) && r.value.slug == slug
  {
    FindBySlug(Coll(cols, CollectionName(categoryName)), slug)
  }

  /**
   * `get_article_by_slug` (app.py:36-42): the related articles are looked
   * up with the found article's own `category` and `_id`, three of them.
   */
  function ArticleLookup(cols: Collections, categoryName: string, slug: string): (r: LookupReply)
    ensures r.NotFound? <==> forall a :: a in Coll(cols, CollectionName(categoryName)) ==> a.slug != slug
    ensures r.Found? ==>
      r.article in Coll(cols, CollectionName(categoryName)) && r.article.slug == slug &&
      r.related == Related(cols, r.article.category, r.article.id, 3)
  {
    match SingleArticle(cols, categoryName, slug)
    case None => NotFound
    case Some(a) => Found(a, Related(cols, a.category, a.id, 3))
  }

  function LookupStatusCode(r: LookupReply): (code: int)
    ensures code == 404 <==> r.NotFound?
    ensures code == 200 <==> r.Found?
  {
    if r.NotFound? then 404 else 200
  }

  /**
   * A found article comes with at most three related articles, none of
   * them itself, all from its own category's collection, newest first.
   */
  lemma LookupRelated(cols: Collections, categoryName: string, slug: string)
    ensures var r := ArticleLookup(cols, categoryName, slug);
      r.Found? ==>
        |r.related| <= 3 &&
        NonIncreasing(r.related, PublishedAt) &&
        forall x :: x in r.related ==> x.id != r.article.id && x in Coll(cols, CollectionName(r.article.category))
  {
    var r := ArticleLookup(cols, categoryName, slug);
    if r.Found? {
      RelatedProperties(cols, r.article.category, r.article.id, 3);
    }
  }
}
