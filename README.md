# news-hub-backend, modelled in Dafny

news-hub-backend is a small news service. It has three parts:

- **Ingestion.** It pulls the newest item of each of six fixed categories from a news feed, has a text model rewrite each item, and stores the rewrite in a MongoDB collection of its own per category. A slug derived from the title keeps articles unique within their category.
- **Read API.** A JSON API serves:
  - the global feed: the three newest articles of each category, merged and paged in memory;
  - category pages;
  - single articles with their related articles;
  - a text search across the categories;
  - newsletter subscriptions.
- **Maintenance scripts.** One script backfills missing article images. The other empties every category collection after a typed confirmation.

This project models that core as Dafny 4.11 code and proves properties of it.

**Modules**

- **Text:** the ASCII string operations the core relies on.
- **Categories:** the category table and `get_collection_name`.
- **Slug:** the slug rule.
- **Slicing:** Python slices and the store's `skip`/`limit`.
- **StableSort:** a stable descending sort. Python's `list.sort(reverse=True)` is stable; the store's `sort(..., -1)` is modelled with the same sort (see "## Left out" for ties).
- **Store:** the document store, a class `Database`. It holds a map from collection names to article sequences, the subscriber sequence, and the next identifier to hand out. It also has the store operations the core calls.
- **Feed:** `fetch_articles_by_category`.
- **Ingest:** the ingestion loop of the `generate-and-save` endpoint.
- **Queries:** the read path of `services.py`.
- **Api:** the status logic of the HTTP handlers.
- **Backfill:** `backfill_missing_images`.
- **EmptyCollections:** `delete_all_articles`.

**How loops are modelled.** The source's loops (the feed fetch, ingestion, the global feed's gathering, search, and the two scripts) are each an imperative `method` with a `while` loop. Each method is proved equal to a recursive function of its inputs: `FetchFrom`, `IngestUpTo`, `PoolUpTo`, `SearchPoolUpTo`, `BackfillUpTo` and `EmptiedUpTo`. The properties the source promises are then proved as lemmas about those functions.

**What the code does where a reader might expect otherwise:**

- Collection names lower-case the display name and turn spaces into `_`. For example, `World News` becomes `world_news`.
- Ingestion stores the feed item's `thumbnail` as `imageUrl`. It does not generate an image inline.
- A rewrite is saved when it has a `title` key. The `content` key is not checked.
- A feed result missing its `headline` or `bodyText` raises `KeyError`. Only `RequestException` is caught, so the whole fetch fails rather than skipping that category. The endpoint then answers a server error; the model answers `ServerError`.

## Model

| member | source | states |
|---|---|---|
| `Categories.CollectionName` | services.py:38-39 | the name keeps its length, holds no upper-case letter and no space; each position is the lower-cased character, or `_` where the display name had a space |
| `Categories.CollectionNamesDistinct` | services.py:12-15 | the six categories map to six distinct collections, none of them `subscribers` |
| `Categories.IndexOfFound` | services.py:12-15 | looking a display name up in the table fails exactly for names that are not categories |
| `Categories.IndexOfCategory` | services.py:12-15 | looking up the i-th display name gives back i |
| `Slug.Slugify` | services.py:83-84 | a slug has at most 80 characters, all lower-case letters, digits or `-`; no space, quote or `?` survives |
| `Slug.SlugifyIdempotent` | services.py:83-84 | a slug is its own slug |
| `Slug.KeepSlugChars` | services.py:84 | the join never lengthens, and every character it keeps is an alphanumeric or a hyphen of the input |
| `Slug.KeepSlugCharsKeeps` | services.py:84 | every alphanumeric and every hyphen of the input is kept |
| `Slug.KeepSlugCharsAppend` | services.py:84 | the filter works piece by piece, so the kept characters stay in their order |
| `Text.LowerString` | services.py:83 | lower-casing keeps the length, maps each character, and leaves a string with no upper-case letter as it is |
| `Text.RemoveChar` | services.py:83 | `replace(c, '')` leaves no `c`, adds no character, never lengthens, and changes nothing when there is no `c` |
| `Text.RemoveCharKeeps` | services.py:83 | every other character is kept: the multiset of the result is that of the input with `c` taken out, so the length drops by the number of `c`s |
| `Text.RemoveCharAppend` | services.py:83 | removal works piece by piece, so the kept characters stay in their order |
| `Text.LowerTwice` | empty_collections.py:20 | lower-casing is idempotent |
| `Slicing.SliceBound` | services.py:101 | a slice bound is clamped to the sequence as Python does, negative bounds counting from the end |
| `Slicing.PySlice` | services.py:99-101 | `all[start:end]` with non-negative bounds is the clamped ordinary slice, at most `end - start` long, and empty from the end on |
| `Slicing.MongoLimit` | services.py:115 | `limit(n)` is a prefix; zero means no limit; otherwise it holds exactly min(abs(n), size) documents, the leading ones |
| `StableSort.SortDescSorted` | services.py:98 | the descending sort is ordered by the key |
| `StableSort.SortDesc` | services.py:98 | the sort is a permutation of its input |
| `StableSort.SortDescStable` | services.py:136 | for every key value, the elements with that key keep their input order (the sort is stable) |
| `StableSort.SortDescConstantKey` | services.py:136 | with one key for all elements the sort changes nothing |
| `Store.FindBySlug` | services.py:85 | `find_one({'slug': s})` fails exactly when no document has slug `s`, and otherwise answers the first such document |
| `Store.SetImageById` | backfill_images.py:67-70 | `update_one` keeps every id and slug; each document is either unchanged or has that id and gains the new `imageUrl`; with no document of that id nothing changes |
| `Store.SetImageByIdAt` | backfill_images.py:67-70 | with unique ids, the update changes the `imageUrl` of the one document with that id and nothing else |
| `Store.SizesUpToAppend` | services.py:87 | appending one document to category n's collection adds one to the summed sizes of the first k categories when n < k, and nothing otherwise |
| `Store.Database.SaveArticle` | services.py:76-89 | no title or a slug already in the category's collection saves nothing; otherwise the document (rewrite, category, image URL, time, derived slug) is appended with the next id; the store invariant (unique slugs and ids per collection) is kept |
| `Store.Database.InsertArticle` | services.py:87 | `insert_one` appends the document with a fresh id and keeps slugs unique |
| `Store.Database.SaveSubscriber` | services.py:143-168 | a known email answers `exists` and changes nothing; a new one is appended with the next id and answers `success` |
| `Store.Database.SetImage` | backfill_images.py:67-70 | `update_one` by `_id` on `$set imageUrl`, keeping the store invariant |
| `Store.Database.DeleteMany` | empty_collections.py:41-43 | `delete_many({})` empties one collection and answers its former size |
| `Feed.ItemOf` | services.py:48-62 | one category gives the key error exactly when its first result lacks `headline` or `bodyText`; otherwise nothing for a failed request or no results, or one item built from the first result's fields and tagged with the category's display name |
| `Feed.FetchArticles` | services.py:43-63 | the loop gives what the per-category fold `FetchAll` gives, the escaping key error included |
| `Feed.FetchAllOrdered` | services.py:43-63 | at most six items, each tagged with a display name, in the table's order, no category twice |
| `Feed.FetchSkipsFailedCategory` | services.py:61-62 | a failed request for category k drops exactly k's item and changes nothing else |
| `Ingest.IngestUpTo` | app.py:85-91 | after k items the count grew by at most k, and each save took exactly one identifier |
| `Ingest.StepCounts` | app.py:88-91 | the count goes up exactly when the rewrite has a title and its slug is free in the category's collection; otherwise nothing changes |
| `Ingest.StepAppends` | services.py:85-87 | one pass only appends, to one collection, at most the new document |
| `Ingest.StepOthers` | services.py:78-87 | one pass over an item of a category leaves every collection outside the category table as it was |
| `Ingest.IngestGrows` | app.py:86-91 | the loop only appends: each collection after j items is a prefix of itself after k items |
| `Ingest.IngestProvenance` | app.py:89 | every new document was saved for one of the items, in that item's category collection, and its `imageUrl` is that item's thumbnail |
| `Ingest.IngestCovers` | app.py:86-91 | no early exit: every item whose rewrite has a title ends with its slug present in its category's collection |
| `Ingest.IngestTotal` | app.py:86-91 | the number of articles across the category collections grows by exactly the count |
| `Ingest.IngestOthers` | app.py:89 | collections outside the category table are untouched |
| `Ingest.IngestItems` | app.py:86-91 | the loop over the fetched items gives the store, the id counter and the count of the ingestion fold |
| `Ingest.GenerateAndSave` | app.py:79-92 | a key error in the feed answers a server error; an empty feed answers "no new articles" and saves nothing; otherwise the store and the count are those of the ingestion fold over the items |
| `Ingest.IngestOne` | app.py:87-91 | the loop body is one step of the fold: save when the rewrite has a title, count when the save succeeds |
| `Ingest.FeedIngest` | app.py:82-92 | a run saves at most one article per item and at most six, takes one id per save, and grows the category total by the count |
| `Queries.Newest` | services.py:96 | `sort('publishedAt', -1)` is a permutation, newest first |
| `Queries.TopThree` | services.py:96 | `limit(3)` of the newest-first order: exactly its first min(3, size) articles |
| `Queries.GatherTopThree` | services.py:94-97 | the gathering loop collects the three newest of each category in table order |
| `Queries.GlobalFeed` | services.py:91-101 | a page holds at most eighteen articles, all of them candidates |
| `Queries.GetArticles` | services.py:91-103 | the global feed is the gathered candidates sorted newest first and sliced to the page |
| `Queries.PoolUpToMembers` | services.py:94-97 | a candidate is exactly an article among the three newest of some category |
| `Queries.PoolSize` | services.py:94-97 | at most eighteen candidates |
| `Queries.GlobalFeedPage` | services.py:98-101 | a page of the global feed has at most `per_page` articles, newest first |
| `Queries.GlobalFeedFromTopThree` | services.py:91-101 | every article on any page is among the three newest of its category |
| `Queries.GlobalFeedPastEighteen` | services.py:99-101 | a page starting at the eighteenth candidate or later is empty |
| `Queries.PageSkip` | services.py:115 | the skip of a page numbered from 1 is never negative |
| `Queries.CategoryPage` | services.py:112-118 | a negative skip (page < 1) answers nothing; a page holds at most `per_page` articles, all from the category's collection |
| `Queries.CategoryPageSlice` | services.py:112-118 | a category page is the slice from `(page-1)*per_page` of the collection sorted newest first |
| `Queries.CategoryPageOrder` | services.py:112-118 | a category page has at most `per_page` articles, newest first |
| `Queries.CategoryPagesTile` | services.py:115 | pages 1..p together are the first p*per_page articles of the sorted collection |
| `Queries.OtherThan` | services.py:123-124 | `{'_id': {'$ne': id}}` keeps exactly the documents with another id |
| `Queries.Related` | services.py:120-127 | the related articles come from the category's collection and never have the excluded id |
| `Queries.RelatedProperties` | services.py:120-127 | the related articles are the `count` newest of the other articles of the category: never the article itself, newest first |
| `Queries.Matching` | services.py:134 | the documents returned are exactly the matching documents of the collection |
| `Queries.MatchingAppend` | services.py:134 | the filter works piece by piece, so the matches keep their stored order |
| `Queries.SearchResults` | services.py:136 | the results are a permutation of the per-category matches, highest score first (missing score = 0) |
| `Queries.SearchArticles` | services.py:129-139 | the search loop gives the per-category matches, concatenated in table order and sorted by score |
| `Queries.SearchResultsOrder` | services.py:136 | the results are a permutation of the matches, highest score first (missing score = 0), stable among equal scores |
| `Queries.SearchWithoutScores` | services.py:136 | without scores the results are the matches in category order |
| `Queries.SearchPoolMembers` | services.py:132-135 | every result matches and comes from a category collection |
| `Api.SubscribeStatusCode` | app.py:70-75 | `success` gives 201, `exists` 200, `error` 500, and no other status |
| `Api.Subscribe` | app.py:60-75 | a missing or empty email gives 400 and changes nothing; otherwise 200 exactly for a known email (nothing changes), else 201 with the subscriber appended |
| `Api.SearchEndpoint` | app.py:50-56 | a missing or empty `q` gives 400 with no results; otherwise 200 with the search results for `q` |
| `Api.SingleArticle` | services.py:105-110 | the lookup fails exactly when no article of that collection has the slug |
| `Api.ArticleLookup` | app.py:36-42 | a miss gives not-found; a hit is the article with that slug, with related articles fetched by its own `category` and `_id`, three of them |
| `Api.LookupStatusCode` | app.py:39-42 | not-found gives 404; a hit gives 200 |
| `Api.LookupRelated` | app.py:40 | a hit comes with at most three related articles, none of them itself, from its category, newest first |
| `Backfill.TitleForImage` | backfill_images.py:53 | a missing title falls back to `Untitled` |
| `Backfill.Filled` | backfill_images.py:59-70 | only `imageUrl` can change, and only for a document without one when the generator answers a non-empty URL |
| `Backfill.StyleOf` | backfill_images.py:54 | a category's configured style, or `photorealistic` when it has none |
| `Backfill.Selected` | backfill_images.py:37-42 | the selection never grows the collection and holds exactly its documents with no `imageUrl` |
| `Backfill.SelectedMembers` | backfill_images.py:37-42 | the selection is exactly the documents whose `imageUrl` is absent or null |
| `Backfill.Backfilled` | backfill_images.py:51-74 | each document of the collection is processed on its own |
| `Backfill.FillStep` | backfill_images.py:67-70 | one update by id processes exactly the one selected document with that id |
| `Backfill.FilledUpToPartly` | backfill_images.py:51-70 | processing the selection one by one is processing the set of its ids |
| `Backfill.CountUpToPrefix` | backfill_images.py:65-72 | the running counter counts the truthy URLs so far |
| `Backfill.FillOne` | backfill_images.py:52-74 | the inner loop body: generate from the title (or `Untitled`) and the style, update when truthy, count the update |
| `Backfill.FillSelected` | backfill_images.py:51-74 | the inner loop applies one update per selected document, in order, and counts the truthy URLs |
| `Backfill.BackfillCollection` | backfill_images.py:37-74 | one collection ends up backfilled, and the count is the number of selected documents with a truthy URL |
| `Backfill.BackfillCategory` | backfill_images.py:37-46 | a collection with nothing selected is skipped unchanged |
| `Backfill.BackfillCategories` | backfill_images.py:27-74 | the category loop gives the per-category fold of the store and of the total |
| `Backfill.BackfillMissingImages` | backfill_images.py:13-80 | no connection changes nothing; otherwise the store and the total are those of the fold |
| `Backfill.BackfillUpToAt` | backfill_images.py:30-74 | after k categories those collections are backfilled with their own style, the rest are as they were, and none is added or removed |
| `Backfill.BackfillResult` | backfill_images.py:30-74 | after the job every category collection is backfilled with its own style, and every other collection is untouched |
| `Backfill.CountIsChanged` | backfill_images.py:65-74 | the total is the number of documents whose `imageUrl` was set, at most the selection size |
| `Backfill.BackfilledNothingSelected` | backfill_images.py:44-46 | with nothing selected, nothing changes and nothing is counted |
| `Backfill.RerunSelectsFailures` | backfill_images.py:36-70 | a later run selects exactly the documents that were missing an image and whose generation failed, and asks again for each |
| `Backfill.NoneLeftWhenAllGenerated` | backfill_images.py:36-70 | when every selected title gets a URL, no document is left without an image |
| `Backfill.BackfilledRerun` | backfill_images.py:36-74 | after a run in which every generation succeeded, a later run over the collection with any generator selects nothing, changes nothing and counts nothing |
| `Backfill.RerunKeepsCollection` | backfill_images.py:30-74 | after a run in which every generation succeeded in every category, a later run with any generator keeps each collection as it is |
| `Backfill.RerunIsNoOp` | backfill_images.py:13-80 | after a run in which every generation succeeded in every category, the whole job run again with any generator changes nothing and reports zero |
| `EmptyCollections.Confirmed` | empty_collections.py:19-20 | the answer confirms exactly when it has three characters that lower-case to `y`, `e`, `s` |
| `EmptyCollections.DeleteAllArticles` | empty_collections.py:11-50 | an answer that does not lower-case to `yes` deletes nothing; no connection deletes nothing; otherwise every category collection is emptied and the total is the category total before the run |
| `EmptyCollections.DeleteCategories` | empty_collections.py:33-44 | the loop empties the category collections in table order, adding up the deleted counts |
| `EmptyCollections.EmptiedUpToAt` | empty_collections.py:33-41 | after k categories those collections are empty, the rest are as they were, and none is added or removed |
| `EmptyCollections.CategoryEmptied` | empty_collections.py:41-44 | each deleted count is the size of that category's collection before the run |
| `EmptyCollections.EmptiedResult` | empty_collections.py:33-44 | after a confirmed run every category collection is empty, the category total is zero, and every other collection is untouched |
| `EmptyCollections.RerunDeletesNothing` | empty_collections.py:33-44 | a second run deletes nothing and changes nothing |
| `EmptyCollections.ConfirmedIgnoresCase` | empty_collections.py:19-20 | the confirmation ignores letter case |

## Left out

- How the inputs are modelled:
  - The HTTP client, the text model and the image generator become input oracles:
    - the feed's six answers, as a sequence;
    - the rewrite, as a function of the call number and the item's text;
    - the image URL, as a function of the title and the style.
  - The category configuration's `style` entries become a function from a category's collection name to an optional style.
  - The clock (`datetime.utcnow()`) becomes a parameter, or a function of the loop index.
  - The store's availability becomes a boolean.
  - The confirmation prompt's answer is a string argument.
  - The search's `$text` match is a predicate chosen by the query.
- Not modelled:
  - prompts, JSON parsing, and the stripping of code fences from the model's answer;
  - `time.sleep`, every `print`, and `input`;
  - the MongoClient connection cache, TLS and `ismaster`;
  - index creation;
  - Flask routing, CORS, and the response body texts.
- Unicode: `lower()` and `isalnum()` are modelled on ASCII only. Unicode case mapping and Unicode alphanumerics are not modelled.
- Text search ranking: the store's per-collection `textScore` order is taken as stored order. Only the final in-memory sort by the `score` field is modelled.
- Generic exceptions: the `except Exception` branches of the read functions do not arise in the model. The model has no failing store calls and no ObjectIds that fail to parse.
- Subscription store errors:
  - SaveSubscriber: never answers `error`. The model has no failing store call. The endpoint's 500 mapping is still stated by `Api.SubscribeStatusCode`.
  - The unique email index is modelled as the explicit existence check.
- Request bodies and titles:
  - a request body that is not a JSON object is not modelled;
  - a non-string `title` in a rewrite is not modelled.
- `save_article_to_db` also mutates the caller's dict. The model builds a new document instead; the caller never reads the dict again.
- JSONEncoder: the serialisation of ids and dates is not modelled.
- Ingestion slug rule: the ingestion fold `IngestUpTo` and its lemmas take the slug rule as a parameter. The endpoint passes `Slugify`, so every lemma holds for the real rule. `Slug.Slugify`'s own lemmas state what the rule produces.
- Backfill, missing pieces in the source:
  - `generate_image_with_imagen` is imported by the backfill script but is not defined in services.py.
  - `details.get('style', ...)` is called on the section-id string, which has no `get`. The model follows the comment beside it: each category has an optional configured style, with `photorealistic` as the default.
  - Generated: within one run the generator is a function of (title, style), so two selected documents with the same title and style get the same answer. The API may answer differently each call. The rerun lemmas give the later run a generator of its own.
  - config.py and scheduler.py are not part of this model.
- Newest: MongoDB does not specify the order of documents with equal `publishedAt`. The model breaks ties by stored order. So which of several tied articles is among the top three, the related articles or a category page depends on that choice. `Queries.CategoryPagesTile` also assumes every page query breaks ties the same way.
- Rewrite: the model keeps only the `title` and `content` keys of the parsed answer. The source stores the whole parsed object, so any extra keys it holds are saved with the article.
- The section identifiers of the category table only go into the feed request, whose answers are inputs. They are not modelled.
- Identifiers: the store's `_id` values are modelled as consecutive naturals taken from one counter shared by articles and subscribers. Real ObjectIds are unique but not consecutive.
