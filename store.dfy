/**
 * The document store: one article collection per category plus the
 * subscriber collection, with the store operations the core calls
 * (`find_one`, `insert_one`, `update_one`, `delete_many`).
 */
module Store {
  import opened Wrappers
  import opened Categories
  import opened Slug

  /** An article document. `id` is the store-assigned `_id`. */
  datatype Article = Article(
    id: nat,
    title: Option<string>,
    content: Option<string>,
    category: string,
    slug: string,
    imageUrl: Option<string>,
    publishedAt: int,
    score: Option<int>)

  datatype Subscriber = Subscriber(id: nat, email: string, subscribedAt: int)

  /** What the text model returned, parsed as a JSON object: its `title` and `content` keys. */
  datatype Rewrite = Rewrite(title: Option<string>, content: Option<string>)

  /** The `status` field of `save_subscriber_to_db`'s answer. */
  datatype SubscribeStatus = Success(id: nat) | Exists | Error

  /** A collection that was never written reads as empty. */
  function Coll(cols: map<string, seq<Article>>, name: string): seq<Article> {
    if name in cols then cols[name] else []
  }

  /** `find_one({'slug': slug})`: the first document with that slug. */
  function FindBySlug(c: seq<Article>, slug: string): (r: Option<Article>)
    ensures r.None? <==> forall a :: a in c ==> a.slug != slug
    ensures r.Some? ==> r.value in c && r.value.slug == slug
    ensures r.Some? ==> exists i :: 0 <= i < |c| && c[i] == r.value &&
                                   forall j :: 0 <= j < i ==> c[j].slug != slug
  {
    if c == [] then None
    else if c[0].slug == slug then Some(c[0])
    else
      var r := FindBySlug(c[1..], slug);
      assert forall a :: a in c ==> a == c[0] || a in c[1..];
      if r.Some? then
        var i :| 0 <= i < |c[1..]| && c[1..][i] == r.value &&
                 forall j :: 0 <= j < i ==> c[1..][j].slug != slug;
        assert c[i + 1] == r.value;
        r
      else r
  }

  ghost predicate UniqueSlugs(c: seq<Article>) {
    forall i, j :: 0 <= i < j < |c| ==> c[i].slug != c[j].slug
  }

  ghost predicate UniqueIds(c: seq<Article>) {
    forall i, j :: 0 <= i < j < |c| ==> c[i].id != c[j].id
  }

  ghost predicate IdsBelow(c: seq<Article>, bound: nat) {
    forall i :: 0 <= i < |c| ==> c[i].id < bound
  }

  ghost predicate UniqueEmails(s: seq<Subscriber>) {
    forall i, j :: 0 <= i < j < |s| ==> s[i].email != s[j].email
  }

  /** The document `save_article_to_db` inserts: the rewrite plus the fields it sets. */
  function NewArticle(id: nat, g: Rewrite, category: string, imageUrl: Option<string>, now: int): Article
    requires g.title.Some?
  {
    Article(id, g.title, g.content, category, Slugify(g.title.value), imageUrl, now, None)
  }

  /** `update_one({'_id': id}, {'$set': {'imageUrl': url}})`: the first match only. */
  function SetImageById(c: seq<Article>, id: nat, url: string): (r: seq<Article>)
    ensures |r| == |c|
    ensures forall i :: 0 <= i < |c| ==> r[i].id == c[i].id && r[i].slug == c[i].slug
    ensures forall i :: 0 <= i < |c| ==> r[i] == c[i] || (c[i].id == id && r[i] == c[i].(imageUrl := Some(url)))
    ensures (forall i :: 0 <= i < |c| ==> c[i].id != id) ==> r == c
  {
    if c == [] then []
    else if c[0].id == id then [c[0].(imageUrl := Some(url))] + c[1..]
    else [c[0]] + SetImageById(c[1..], id, url)
  }

  /** With unique ids, the update touches exactly the one document with that id. */
  lemma {:induction false} SetImageByIdAt(c: seq<Article>, id: nat, url: string)
    requires UniqueIds(c)
    ensures forall i :: 0 <= i < |c| ==>
      SetImageById(c, id, url)[i] == if c[i].id == id then c[i].(imageUrl := Some(url)) else c[i]
  {
    if c != [] && c[0].id != id {
      assert UniqueIds(c[1..]) by {
        forall i, j | 0 <= i < j < |c[1..]| ensures c[1..][i].id != c[1..][j].id {
          assert c[1..][i] == c[i + 1] && c[1..][j] == c[j + 1];
        }
      }
      SetImageByIdAt(c[1..], id, url);
    }
  }

  /** Total number of documents in the six category collections. */
  function CategoryTotal(cols: map<string, seq<Article>>): nat {
    SizesUpTo(cols, |CategoryNames|)
  }

  /** Sizes of the first `k` category collections, summed. */
  function SizesUpTo(cols: map<string, seq<Article>>, k: nat): nat
    requires k <= |CategoryNames|
  {
    if k == 0 then 0 else SizesUpTo(cols, k - 1) + |Coll(cols, CategoryCollection(k - 1))|
  }

  /**
   * Appending one document to the collection of category `n` adds one to
   * the total when `n` is among the first `k` categories, and nothing otherwise.
   */
  lemma {:induction false} SizesUpToAppend(cols: map<string, seq<Article>>, n: nat, k: nat, doc: Article)
    requires n < |CategoryNames| && k <= |CategoryNames|
    ensures var name := CategoryCollection(n);
      SizesUpTo(cols[name := Coll(cols, name) + [doc]], k) == SizesUpTo(cols, k) + (if n < k then 1 else 0)
  {
    if k > 0 {
      SizesUpToAppend(cols, n, k - 1, doc);
      CollectionNamesDistinct();
    }
  }

  class Database {
    var collections: map<string, seq<Article>>
    var subscribers: seq<Subscriber>
    /** The next identifier the store hands out. */
    var nextId: nat

    /** Slugs are unique within each collection; identifiers are unique and already handed out; emails are unique. */
    ghost predicate Valid()
      reads this
    {
      (forall name :: name in collections ==>
         UniqueSlugs(collections[name]) && UniqueIds(collections[name]) && IdsBelow(collections[name], nextId)) &&
      UniqueEmails(subscribers)
    }

    constructor ()
      ensures Valid() && collections == map[] && subscribers == []
    {
      collections, subscribers, nextId := map[], [], 0;
    }

    /**
     * `save_article_to_db`: derive the slug from the title; give up when the
     * title is missing or the slug is already taken in the category's
     * collection; otherwise append the document and answer with its id.
     */
    method SaveArticle(g: Rewrite, category: string, imageUrl: Option<string>, now: int) returns (r: Option<nat>)
      requires Valid()
      modifies this
      ensures Valid()
      ensures subscribers == old(subscribers)
      ensures g.title.None? ==> r.None?
      ensures g.title.Some? ==>
        (r.None? <==> FindBySlug(Coll(old(collections), CollectionName(category)), Slugify(g.title.value)).Some?)
      ensures r.None? ==> collections == old(collections) && nextId == old(nextId)
      ensures r.Some? ==> (
        g.title.Some? && r.value == old(nextId) && nextId == old(nextId) + 1 &&
        var name := CollectionName(category);
        collections == old(collections)[name := Coll(old(collections), name) + [NewArticle(r.value, g, category, imageUrl, now)]])
    {
      if g.title.None? {
        // `article_data['title']` raises KeyError, which the handler turns into None.
        return None;
      }
      var name := CollectionName(category);
      var c := Coll(collections, name);
      var slug := Slugify(g.title.value);
      if FindBySlug(c, slug).Some? {
        return None;
      }
      var doc := NewArticle(nextId, g, category, imageUrl, now);
      r := Some(nextId);
      InsertArticle(name, doc);
    }

    /**
     * `insert_one` into an article collection: the document, which takes the
     * next id and a slug not yet present there, goes at the end.
     */
    method InsertArticle(name: string, doc: Article)
      requires Valid() && doc.id == nextId
      requires FindBySlug(Coll(collections, name), doc.slug).None?
      modifies this
      ensures Valid()
      ensures subscribers == old(subscribers) && nextId == old(nextId) + 1
      ensures collections == old(collections)[name := Coll(old(collections), name) + [doc]]
    {
      var c := Coll(collections, name);
      var c' := c + [doc];
      assert UniqueSlugs(c') by {
        forall i, j | 0 <= i < j < |c'| ensures c'[i].slug != c'[j].slug {
          if j == |c| { assert c'[i] in c; }
        }
      }
      assert UniqueIds(c') && IdsBelow(c', nextId + 1);
      ghost var before := collections;
      collections := collections[name := c'];
      nextId := nextId + 1;
      forall n | n in collections
        ensures UniqueSlugs(collections[n]) && UniqueIds(collections[n]) && IdsBelow(collections[n], nextId)
      {
        if n != name {
          assert collections[n] == before[n];
        }
      }
    }

    /**
     * `save_subscriber_to_db`: an email already present answers `exists` and
     * changes nothing; a new one is inserted and answers `success`.
     */
    method SaveSubscriber(email: string, now: int) returns (status: SubscribeStatus)
      requires Valid()
      modifies this
      ensures Valid()
      ensures collections == old(collections)
      ensures (exists s :: s in old(subscribers) && s.email == email) <==> status.Exists?
      ensures status.Exists? ==> subscribers == old(subscribers) && nextId == old(nextId)
      ensures !status.Exists? ==> (
        status == Success(old(nextId)) && nextId == old(nextId) + 1 &&
        subscribers == old(subscribers) + [Subscriber(old(nextId), email, now)])
    {
      var i := 0;
      while i < |subscribers|
        invariant 0 <= i <= |subscribers|
        invariant forall j :: 0 <= j < i ==> subscribers[j].email != email
      {
        if subscribers[i].email == email {
          return Exists;
        }
        i := i + 1;
      }
      subscribers := subscribers + [Subscriber(nextId, email, now)];
      status := Success(nextId);
      nextId := nextId + 1;
    }

    /** `update_one` setting `imageUrl` of the document with this id. */
    method SetImage(name: string, id: nat, url: string)
      requires Valid()
      modifies this
      ensures Valid()
      ensures subscribers == old(subscribers) && nextId == old(nextId)
      ensures collections == if name in old(collections)
        then old(collections)[name := SetImageById(old(collections)[name], id, url)]
        else old(collections)
    {
      if name in collections {
        var c := collections[name];
        var c' := SetImageById(c, id, url);
        assert UniqueSlugs(c') && UniqueIds(c') by {
          assert forall i :: 0 <= i < |c| ==> c'[i].id == c[i].id && c'[i].slug == c[i].slug;
        }
        collections := collections[name := c'];
      }
    }

    /** `delete_many({})` on one collection; answers the number deleted. */
    method DeleteMany(name: string) returns (deleted: nat)
      requires Valid()
      modifies this
      ensures Valid()
      ensures subscribers == old(subscribers) && nextId == old(nextId)
      ensures deleted == |Coll(old(collections), name)|
      ensures collections == if name in old(collections) then old(collections)[name := []] else old(collections)
    {
      deleted := |Coll(collections, name)|;
      if name in collections {
        collections := collections[name := []];
      }
    }
  }
}
