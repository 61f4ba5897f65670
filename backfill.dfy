/**
 * `backfill_missing_images`: for each category collection, select the
 * articles whose `imageUrl` is absent or null, ask the image generator for
 * each (title, style), and set `imageUrl` when it answers a non-empty URL.
 */
module Backfill {
  import opened Wrappers
  import opened Categories
  import opened Store

  /** The image generator: (title, style) to a URL, or None/empty on failure. */
  type Generator = (string, string) -> Option<string>

  /**
   * The category table's configuration, looked up by a category's collection
   * name (one-to-one on the six categories): its `style` entry, if any.
   */
  type StyleConfig = string -> Option<string>

  /** `details.get('style', 'photorealistic')`. */
  function StyleOf(styles: StyleConfig, name: string): (style: string)
    ensures styles(name).None? ==> style == "photorealistic"
    ensures styles(name).Some? ==> style == styles(name).value
  {
    styles(name).GetOr("photorealistic")
  }

  predicate MissingImage(a: Article) { a.imageUrl.None? }

  /** `if image_url:` in Python: present and non-empty. */
  predicate Truthy(url: Option<string>) { url.Some? && url.value != "" }

  /** `article.get('title', 'Untitled')`. */
  function TitleForImage(a: Article): (t: string)
    ensures a.title.None? ==> t == "Untitled"
    ensures a.title.Some? ==> t == a.title.value
  {
    a.title.GetOr("Untitled")
  }

  function Generated(a: Article, gen: Generator, style: string): Option<string> {
    gen(TitleForImage(a), style)
  }

  /** What the job makes of one document. */
  function Filled(a: Article, gen: Generator, style: string): (r: Article)
    ensures r == a.(imageUrl := r.imageUrl)
    ensures r != a ==> MissingImage(a) && Truthy(Generated(a, gen, style)) && r.imageUrl == Generated(a, gen, style)
    ensures MissingImage(a) && Truthy(Generated(a, gen, style)) ==> r.imageUrl == Generated(a, gen, style)
  {
    if MissingImage(a) && Truthy(Generated(a, gen, style)) then a.(imageUrl := Generated(a, gen, style)) else a
  }

  /** `find({'$or': [{'imageUrl': {'$exists': False}}, {'imageUrl': None}]})`. */
  function Selected(c: seq<Article>): (r: seq<Article>)
    ensures |r| <= |c|
    ensures forall x :: x in r ==> x in c && MissingImage(x)
    ensures forall x :: x in c && MissingImage(x) ==> x in r
  {
    if c == [] then []
    else
      assert forall x :: x in c ==> x == c[0] || x in c[1..];
      (if MissingImage(c[0]) then [c[0]] else []) + Selected(c[1..])
  }

  /** The selection holds exactly the documents of `c` without an image. */
  lemma {:induction false} SelectedMembers(c: seq<Article>)
    ensures forall x :: x in Selected(c) <==> x in c && MissingImage(x)
  {
    if c != [] {
      SelectedMembers(c[1..]);
      assert c == [c[0]] + c[1..];
    }
  }

  /** One collection after the job. */
  function Backfilled(c: seq<Article>, gen: Generator, style: string): (r: seq<Article>)
    ensures |r| == |c|
    ensures forall j :: 0 <= j < |c| ==> r[j] == Filled(c[j], gen, style)
  {
    seq(|c|, j requires 0 <= j < |c| => Filled(c[j], gen, style))
  }

  /** How many of `s` get a URL from the generator. */
  function CountFilled(s: seq<Article>, gen: Generator, style: string): nat
  {
    if s == [] then 0
    else (if Truthy(Generated(s[0], gen, style)) then 1 else 0) + CountFilled(s[1..], gen, style)
  }

  lemma {:induction false} CountFilledAppend(s: seq<Article>, x: Article, gen: Generator, style: string)
    ensures CountFilled(s + [x], gen, style)
         == CountFilled(s, gen, style) + (if Truthy(Generated(x, gen, style)) then 1 else 0)
  {
    if s == [] {
      assert [] + [x] == [x];
      assert [x][1..] == [];
    } else {
      assert (s + [x])[1..] == s[1..] + [x];
      CountFilledAppend(s[1..], x, gen, style);
    }
  }

  /** The store after one category collection is processed with that collection's style. */
  function BackfillOne(cols: map<string, seq<Article>>, name: string, gen: Generator, styles: StyleConfig)
    : map<string, seq<Article>>
  {
    if name in cols then cols[name := Backfilled(cols[name], gen, StyleOf(styles, name))] else cols
  }

  /** The store after the first `k` categories have been processed, in table order. */
  function BackfillUpTo(cols: map<string, seq<Article>>, gen: Generator, styles: StyleConfig, k: nat): map<string, seq<Article>>
    requires k <= |CategoryNames|
  {
    if k == 0 then cols else BackfillOne(BackfillUpTo(cols, gen, styles, k - 1), CategoryCollection(k - 1), gen, styles)
  }

  /** The counter after the first `k` categories. */
  function UpdatedUpTo(cols: map<string, seq<Article>>, gen: Generator, styles: StyleConfig, k: nat): nat
    requires k <= |CategoryNames|
  {
    if k == 0 then 0
    else UpdatedUpTo(cols, gen, styles, k - 1) +
         CountFilled(Selected(Coll(cols, CategoryCollection(k - 1))), gen, StyleOf(styles, CategoryCollection(k - 1)))
  }

  /**
   * After the first `k` categories, the collections of those categories are
   * backfilled with their own style, every other collection is as it was,
   * and no collection is added or removed.
   */
  lemma {:induction false} BackfillUpToAt(cols: map<string, seq<Article>>, gen: Generator, styles: StyleConfig, k: nat, n: string)
    requires k <= |CategoryNames|
    ensures n in BackfillUpTo(cols, gen, styles, k) <==> n in cols
    ensures Coll(BackfillUpTo(cols, gen, styles, k), n)
         == if AmongFirst(n, k) then Backfilled(Coll(cols, n), gen, StyleOf(styles, n)) else Coll(cols, n)
  {
    if k > 0 {
      var name := CategoryCollection(k - 1);
      BackfillUpToAt(cols, gen, styles, k - 1, n);
      BackfillOneAt(BackfillUpTo(cols, gen, styles, k - 1), name, gen, styles, n);
      if n == name {
        NotAmongEarlier(k - 1, k - 1);
      }
    }
  }

  /** Processing collection `name` changes that collection and no other. */
  lemma BackfillOneAt(cols: map<string, seq<Article>>, name: string, gen: Generator, styles: StyleConfig, n: string)
    ensures n in BackfillOne(cols, name, gen, styles) <==> n in cols
    ensures Coll(BackfillOne(cols, name, gen, styles), n)
         == if n == name then Backfilled(Coll(cols, n), gen, StyleOf(styles, n)) else Coll(cols, n)
  {
  }

  function IdsOf(s: seq<Article>): set<nat> {
    set x | x in s :: x.id
  }

  lemma {:induction false} SelectedUniqueIds(c: seq<Article>)
    requires UniqueIds(c)
    ensures UniqueIds(Selected(c))
  {
    if c != [] {
      assert UniqueIds(c[1..]) by {
        forall i, j | 0 <= i < j < |c[1..]| ensures c[1..][i].id != c[1..][j].id {
          assert c[1..][i] == c[i + 1] && c[1..][j] == c[j + 1];
        }
      }
      SelectedUniqueIds(c[1..]);
      SelectedMembers(c[1..]);
      var rest := Selected(c[1..]);
      var r := Selected(c);
      if MissingImage(c[0]) {
        assert r == [c[0]] + rest;
        forall j | 0 <= j < |rest| ensures rest[j].id != c[0].id {
          assert rest[j] in c[1..];
          var q :| 0 <= q < |c[1..]| && c[1..][q] == rest[j];
          assert c[q + 1] == rest[j];
        }
      }
    }
  }

  /** Two documents of a collection with unique ids and the same id are the same. */
  lemma SameIdSameDoc(c: seq<Article>, p: nat, x: Article)
    requires UniqueIds(c) && p < |c| && x in c && x.id == c[p].id
    ensures x == c[p]
  {
  }

  /** `c0` with the documents whose ids are in `done` processed. */
  function PartlyFilled(c0: seq<Article>, done: set<nat>, gen: Generator, style: string): (r: seq<Article>)
    ensures |r| == |c0|
    ensures forall p :: 0 <= p < |c0| ==> r[p] == if c0[p].id in done then Filled(c0[p], gen, style) else c0[p]
  {
    seq(|c0|, p requires 0 <= p < |c0| => if c0[p].id in done then Filled(c0[p], gen, style) else c0[p])
  }

  /** Processing keeps every id in place. */
  lemma PartlyFilledIds(c0: seq<Article>, done: set<nat>, gen: Generator, style: string)
    requires UniqueIds(c0)
    ensures UniqueIds(PartlyFilled(c0, done, gen, style))
    ensures forall p :: 0 <= p < |c0| ==> PartlyFilled(c0, done, gen, style)[p].id == c0[p].id
  {
  }

  /** Processing one more selected document extends the processed set by its id. */
  lemma FillStep(c0: seq<Article>, done: set<nat>, article: Article, gen: Generator, style: string)
    requires UniqueIds(c0)
    requires article in c0 && MissingImage(article) && article.id !in done
    ensures PartlyFilled(c0, done + {article.id}, gen, style)
         == ImageStep(PartlyFilled(c0, done, gen, style), article, gen, style)
  {
    var cur := PartlyFilled(c0, done, gen, style);
    var next := PartlyFilled(c0, done + {article.id}, gen, style);
    var url := Generated(article, gen, style);
    PartlyFilledIds(c0, done, gen, style);
    if Truthy(url) {
      var set1 := SetImageById(cur, article.id, url.value);
      SetImageByIdAt(cur, article.id, url.value);
      forall p | 0 <= p < |c0| ensures next[p] == set1[p] {
        if c0[p].id == article.id {
          SameIdSameDoc(c0, p, article);
        }
      }
    } else {
      forall p | 0 <= p < |c0| ensures next[p] == cur[p] {
        if c0[p].id == article.id {
          SameIdSameDoc(c0, p, article);
        }
      }
    }
  }

  /** An id seen among the first `j` selected documents is not the id of the `j`-th. */
  lemma PrefixIdsFresh(selected: seq<Article>, j: nat)
    requires UniqueIds(selected) && j < |selected|
    ensures selected[j].id !in IdsOf(selected[..j])
    ensures IdsOf(selected[..j + 1]) == IdsOf(selected[..j]) + {selected[j].id}
  {
    assert selected[..j + 1] == selected[..j] + [selected[j]];
  }

  lemma MapUpdateTwice(m: map<string, seq<Article>>, k: string, v1: seq<Article>, v2: seq<Article>)
    ensures m[k := v1][k := v2] == m[k := v2]
  {
  }

  lemma MapUpdateSame(m: map<string, seq<Article>>, k: string)
    requires k in m
    ensures m == m[k := m[k]]
  {
  }

  /** What `update_one` makes of a collection for one selected article. */
  function ImageStep(c: seq<Article>, a: Article, gen: Generator, style: string): seq<Article> {
    var url := Generated(a, gen, style);
    if Truthy(url) then SetImageById(c, a.id, url.value) else c
  }

  /** The collection once the first `j` selected articles are processed, in order. */
  function FilledUpTo(c0: seq<Article>, sel: seq<Article>, gen: Generator, style: string, j: nat): seq<Article>
    requires j <= |sel|
  {
    if j == 0 then c0 else ImageStep(FilledUpTo(c0, sel, gen, style, j - 1), sel[j - 1], gen, style)
  }

  /** The counter once the first `j` selected articles are processed. */
  function CountUpTo(sel: seq<Article>, gen: Generator, style: string, j: nat): nat
    requires j <= |sel|
  {
    if j == 0 then 0
    else CountUpTo(sel, gen, style, j - 1) + (if Truthy(Generated(sel[j - 1], gen, style)) then 1 else 0)
  }

  /** The running counter is the number of the first `j` that get a URL. */
  lemma {:induction false} CountUpToPrefix(sel: seq<Article>, gen: Generator, style: string, j: nat)
    requires j <= |sel|
    ensures CountUpTo(sel, gen, style, j) == CountFilled(sel[..j], gen, style)
  {
    if j > 0 {
      CountUpToPrefix(sel, gen, style, j - 1);
      assert sel[..j] == sel[..j - 1] + [sel[j - 1]];
      CountFilledAppend(sel[..j - 1], sel[j - 1], gen, style);
    }
  }

  /**
   * Processing the selected articles one by one is processing the set of
   * their ids: each `update_one` reaches the one document with that id.
   */
  lemma {:induction false} FilledUpToPartly(c0: seq<Article>, sel: seq<Article>, gen: Generator, style: string, j: nat)
    requires UniqueIds(c0) && UniqueIds(sel) && j <= |sel|
    requires forall k :: 0 <= k < |sel| ==> sel[k] in c0 && MissingImage(sel[k])
    ensures FilledUpTo(c0, sel, gen, style, j) == PartlyFilled(c0, IdsOf(sel[..j]), gen, style)
  {
    if j == 0 {
      PartlyFilledNone(c0, sel, gen, style);
    } else {
      FilledUpToPartly(c0, sel, gen, style, j - 1);
      FilledUpToStep(c0, sel, gen, style, j);
    }
  }

  /** With no id processed the collection is as it was. */
  lemma PartlyFilledNone(c0: seq<Article>, sel: seq<Article>, gen: Generator, style: string)
    ensures PartlyFilled(c0, IdsOf(sel[..0]), gen, style) == c0
  {
    assert sel[..0] == [];
    assert IdsOf(sel[..0]) == {};
  }

  /** One more selected article processed is one more id processed. */
  lemma FilledUpToStep(c0: seq<Article>, sel: seq<Article>, gen: Generator, style: string, j: nat)
    requires UniqueIds(c0) && UniqueIds(sel) && 0 < j <= |sel|
    requires sel[j - 1] in c0 && MissingImage(sel[j - 1])
    requires FilledUpTo(c0, sel, gen, style, j - 1) == PartlyFilled(c0, IdsOf(sel[..j - 1]), gen, style)
    ensures FilledUpTo(c0, sel, gen, style, j) == PartlyFilled(c0, IdsOf(sel[..j]), gen, style)
  {
    PrefixIdsFresh(sel, j - 1);
    FillStep(c0, IdsOf(sel[..j - 1]), sel[j - 1], gen, style);
  }

  /** Once every selected id is processed, the collection is backfilled. */
  lemma FillDone(c0: seq<Article>, gen: Generator, style: string)
    requires UniqueIds(c0)
    ensures PartlyFilled(c0, IdsOf(Selected(c0)), gen, style) == Backfilled(c0, gen, style)
  {
    var cur := PartlyFilled(c0, IdsOf(Selected(c0)), gen, style);
    SelectedMembers(c0);
    forall p | 0 <= p < |c0| ensures cur[p] == Filled(c0[p], gen, style) {
      if c0[p].id in IdsOf(Selected(c0)) {
        var x :| x in Selected(c0) && x.id == c0[p].id;
        SameIdSameDoc(c0, p, x);
      }
    }
  }

  /**
   * The body of the inner loop for one selected article: generate an image
   * from its title (or 'Untitled') and the style, and set `imageUrl` when
   * the generator answers a non-empty URL.
   */
  method FillOne(db: Database, name: string, article: Article, gen: Generator, style: string) returns (hit: bool)
    requires db.Valid() && name in db.collections
    modifies db
    ensures db.Valid()
    ensures db.subscribers == old(db.subscribers) && db.nextId == old(db.nextId)
    ensures db.collections == old(db.collections)[name := ImageStep(old(db.collections)[name], article, gen, style)]
    ensures hit == Truthy(Generated(article, gen, style))
  {
    var title := TitleForImage(article);
    var url := gen(title, style);
    hit := Truthy(url);
    if hit {
      db.SetImage(name, article.id, url.value);
    } else {
      MapUpdateSame(db.collections, name);
    }
  }

  /** The job's work on one collection: backfill its selected articles. */
  method BackfillCollection(db: Database, name: string, gen: Generator, style: string) returns (updated: nat)
    requires db.Valid() && name in db.collections
    modifies db
    ensures db.Valid()
    ensures db.subscribers == old(db.subscribers) && db.nextId == old(db.nextId)
    ensures db.collections == old(db.collections)[name := Backfilled(old(db.collections)[name], gen, style)]
    ensures updated == CountFilled(Selected(old(db.collections)[name]), gen, style)
  {
    var c0 := db.collections[name];
    var selected := Selected(c0);
    updated := FillSelected(db, name, selected, gen, style);
    SelectedUniqueIds(c0);
    FilledUpToPartly(c0, selected, gen, style, |selected|);
    FillDone(c0, gen, style);
    CountUpToPrefix(selected, gen, style, |selected|);
    assert selected[..|selected|] == selected;
  }

  /** The inner loop: one `FillOne` per selected article, in order. */
  method FillSelected(db: Database, name: string, selected: seq<Article>, gen: Generator, style: string)
    returns (updated: nat)
    requires db.Valid() && name in db.collections
    modifies db
    ensures db.Valid()
    ensures db.subscribers == old(db.subscribers) && db.nextId == old(db.nextId)
    ensures db.collections
         == old(db.collections)[name := FilledUpTo(old(db.collections)[name], selected, gen, style, |selected|)]
    ensures updated == CountUpTo(selected, gen, style, |selected|)
  {
    ghost var m0 := db.collections;
    ghost var c0 := db.collections[name];
    MapUpdateSame(m0, name);
    updated := 0;
    var j := 0;
    while j < |selected|
      invariant db.Valid() && 0 <= j <= |selected|
      invariant db.collections == m0[name := FilledUpTo(c0, selected, gen, style, j)]
      invariant db.subscribers == old(db.subscribers) && db.nextId == old(db.nextId)
      invariant updated == CountUpTo(selected, gen, style, j)
    {
      ghost var cur := FilledUpTo(c0, selected, gen, style, j);
      var hit := FillOne(db, name, selected[j], gen, style);
      MapUpdateTwice(m0, name, cur, ImageStep(cur, selected[j], gen, style));
      if hit {
        updated := updated + 1;
      }
      j := j + 1;
    }
  }

  /** The loop's invariant carries over one category. */
  lemma CategoryDone(cols: map<string, seq<Article>>, prev: map<string, seq<Article>>, total: nat, updated: nat,
                     gen: Generator, styles: StyleConfig, k: nat)
    requires k < |CategoryNames|
    requires prev == BackfillUpTo(cols, gen, styles, k) && total == UpdatedUpTo(cols, gen, styles, k)
    requires updated == CountFilled(Selected(Coll(prev, CategoryCollection(k))), gen, StyleOf(styles, CategoryCollection(k)))
    ensures total + updated == UpdatedUpTo(cols, gen, styles, k + 1)
  {
    BackfillUpToAt(cols, gen, styles, k, CategoryCollection(k));
    NotAmongEarlier(k, k);
  }

  /**
   * One category of the job: skip the collection when nothing is selected,
   * otherwise process it with the category's configured style.
   */
  method BackfillCategory(db: Database, name: string, gen: Generator, styles: StyleConfig) returns (updated: nat)
    requires db.Valid()
    modifies db
    ensures db.Valid()
    ensures db.subscribers == old(db.subscribers)
    ensures db.collections == BackfillOne(old(db.collections), name, gen, styles)
    ensures updated == CountFilled(Selected(Coll(old(db.collections), name)), gen, StyleOf(styles, name))
  {
    var toUpdate := Selected(Coll(db.collections, name));
    var style := StyleOf(styles, name);
    if toUpdate != [] {
      updated := BackfillCollection(db, name, gen, style);
    } else {
      updated := 0;
      if name in db.collections {
        BackfilledNothingSelected(db.collections[name], gen, style);
        MapUpdateSame(db.collections, name);
      }
    }
  }

  /**
   * `backfill_missing_images` (backfill_images.py:13-80): nothing happens
   * when the store cannot be reached; otherwise the category loop runs and
   * its total is reported.
   */
  method BackfillMissingImages(db: Database, connected: bool, gen: Generator, styles: StyleConfig) returns (total: Option<nat>)
    requires db.Valid()
    modifies db
    ensures db.Valid()
    ensures db.subscribers == old(db.subscribers)
    ensures total.None? <==> !connected
    ensures total.None? ==> db.collections == old(db.collections)
    ensures total.Some? ==>
      db.collections == BackfillUpTo(old(db.collections), gen, styles, |CategoryNames|) &&
      total.value == UpdatedUpTo(old(db.collections), gen, styles, |CategoryNames|)
  {
    if !connected {
      return None;
    }
    var updated := BackfillCategories(db, gen, styles);
    total := Some(updated);
  }

  /** The category loop of `backfill_missing_images`, in table order. */
  method BackfillCategories(db: Database, gen: Generator, styles: StyleConfig) returns (totalUpdated: nat)
    requires db.Valid()
    modifies db
    ensures db.Valid()
    ensures db.subscribers == old(db.subscribers)
    ensures db.collections == BackfillUpTo(old(db.collections), gen, styles, |CategoryNames|)
    ensures totalUpdated == UpdatedUpTo(old(db.collections), gen, styles, |CategoryNames|)
  {
    ghost var cols := db.collections;
    totalUpdated := 0;
    var k := 0;
    while k < |CategoryNames|
      invariant db.Valid() && 0 <= k <= |CategoryNames|
      invariant db.subscribers == old(db.subscribers)
      invariant db.collections == BackfillUpTo(cols, gen, styles, k)
      invariant totalUpdated == UpdatedUpTo(cols, gen, styles, k)
    {
      ghost var prev := db.collections;
      var updated := BackfillCategory(db, CategoryCollection(k), gen, styles);
      CategoryDone(cols, prev, totalUpdated, updated, gen, styles, k);
      totalUpdated := totalUpdated + updated;
      k := k + 1;
    }
  }

  /** With nothing selected the collection is left as it is and nothing is counted. */
  lemma BackfilledNothingSelected(c: seq<Article>, gen: Generator, style: string)
    requires Selected(c) == []
    ensures Backfilled(c, gen, style) == c
    ensures CountFilled(Selected(c), gen, style) == 0
  {
    SelectedMembers(c);
    forall j | 0 <= j < |c| ensures Filled(c[j], gen, style) == c[j] {
      assert c[j] in c;
    }
  }

  /**
   * After the job, every category collection is backfilled with its own
   * style, every other collection is as it was, and no collection is added
   * or removed.
   */
  lemma BackfillResult(cols: map<string, seq<Article>>, gen: Generator, styles: StyleConfig)
    ensures var r := BackfillUpTo(cols, gen, styles, |CategoryNames|);
      r.Keys == cols.Keys &&
      (forall i :: 0 <= i < |CategoryNames| ==>
         Coll(r, CategoryCollection(i))
         == Backfilled(Coll(cols, CategoryCollection(i)), gen, StyleOf(styles, CategoryCollection(i)))) &&
      (forall n :: !AmongFirst(n, |CategoryNames|) ==> Coll(r, n) == Coll(cols, n))
  {
    var r := BackfillUpTo(cols, gen, styles, |CategoryNames|);
    forall n ensures n in r <==> n in cols {
      BackfillUpToAt(cols, gen, styles, |CategoryNames|, n);
    }
    forall i | 0 <= i < |CategoryNames|
      ensures Coll(r, CategoryCollection(i))
           == Backfilled(Coll(cols, CategoryCollection(i)), gen, StyleOf(styles, CategoryCollection(i)))
    {
      BackfillUpToAt(cols, gen, styles, |CategoryNames|, CategoryCollection(i));
      AmongAll(i, |CategoryNames|);
    }
    forall n | !AmongFirst(n, |CategoryNames|) ensures Coll(r, n) == Coll(cols, n) {
      BackfillUpToAt(cols, gen, styles, |CategoryNames|, n);
    }
  }

  /** The documents whose image the job changes. */
  function CountChanged(c: seq<Article>, gen: Generator, style: string): (r: nat)
    ensures r <= |c|
  {
    if c == [] then 0
    else (if Filled(c[0], gen, style) != c[0] then 1 else 0) + CountChanged(c[1..], gen, style)
  }

  /** The counter is the number of documents whose `imageUrl` the job set. */
  lemma {:induction false} CountIsChanged(c: seq<Article>, gen: Generator, style: string)
    ensures CountFilled(Selected(c), gen, style) == CountChanged(c, gen, style)
    ensures CountChanged(c, gen, style) <= |Selected(c)|
  {
    if c != [] {
      CountIsChanged(c[1..], gen, style);
      var rest := Selected(c[1..]);
      if MissingImage(c[0]) {
        assert Selected(c) == [c[0]] + rest;
        assert ([c[0]] + rest)[1..] == rest;
      } else {
        assert Selected(c) == rest;
      }
    }
  }

  /** Nothing is selected from a collection where every document has an image. */
  lemma {:induction false} SelectedNone(c: seq<Article>)
    requires forall j :: 0 <= j < |c| ==> !MissingImage(c[j])
    ensures Selected(c) == []
  {
    if c != [] {
      assert forall j :: 0 <= j < |c[1..]| ==> c[1..][j] == c[j + 1];
      SelectedNone(c[1..]);
    }
  }

  /**
   * What a later run selects from a backfilled collection: exactly the
   * documents that were missing an image and whose generation failed. The
   * later run asks the generator again for each of them.
   */
  lemma RerunSelectsFailures(c: seq<Article>, gen: Generator, style: string)
    ensures forall x :: x in Selected(Backfilled(c, gen, style)) <==>
      x in Selected(c) && !Truthy(Generated(x, gen, style))
  {
    var r := Backfilled(c, gen, style);
    SelectedMembers(c);
    SelectedMembers(r);
    forall x ensures x in r && MissingImage(x) <==> x in c && MissingImage(x) && !Truthy(Generated(x, gen, style)) {
      if x in r && MissingImage(x) {
        var j :| 0 <= j < |r| && r[j] == x;
        assert x == c[j];
      }
      if x in c && MissingImage(x) && !Truthy(Generated(x, gen, style)) {
        var j :| 0 <= j < |c| && c[j] == x;
        assert r[j] == x;
      }
    }
  }

  /** Every document that is missing an image gets a non-empty URL from `gen`. */
  predicate AllGenerated(c: seq<Article>, gen: Generator, style: string) {
    forall a :: a in c && MissingImage(a) ==> Truthy(Generated(a, gen, style))
  }

  /** When the generator answers for every selected title, no document is left without an image. */
  lemma NoneLeftWhenAllGenerated(c: seq<Article>, gen: Generator, style: string)
    requires AllGenerated(c, gen, style)
    ensures Selected(Backfilled(c, gen, style)) == []
  {
    var r := Backfilled(c, gen, style);
    forall j | 0 <= j < |r| ensures !MissingImage(r[j]) {
      assert c[j] in c;
    }
    SelectedNone(r);
  }

  /**
   * After a run in which every generation succeeded, a later run over the
   * collection, whatever its generator answers, selects nothing, changes
   * nothing and counts nothing.
   */
  lemma BackfilledRerun(c: seq<Article>, first: Generator, later: Generator, style: string)
    requires AllGenerated(c, first, style)
    ensures var once := Backfilled(c, first, style);
      Selected(once) == [] &&
      Backfilled(once, later, style) == once &&
      CountFilled(Selected(once), later, style) == 0
  {
    NoneLeftWhenAllGenerated(c, first, style);
    BackfilledNothingSelected(Backfilled(c, first, style), later, style);
  }

  /**
   * The whole job run again, with any generator, after a run in which every
   * generation succeeded in every category: the store is unchanged and the
   * total is zero.
   */
  lemma RerunIsNoOp(cols: map<string, seq<Article>>, first: Generator, later: Generator, styles: StyleConfig)
    requires forall i :: 0 <= i < |CategoryNames| ==>
      AllGenerated(Coll(cols, CategoryCollection(i)), first, StyleOf(styles, CategoryCollection(i)))
    ensures var r := BackfillUpTo(cols, first, styles, |CategoryNames|);
      BackfillUpTo(r, later, styles, |CategoryNames|) == r &&
      UpdatedUpTo(r, later, styles, |CategoryNames|) == 0
  {
    var r := BackfillUpTo(cols, first, styles, |CategoryNames|);
    var r2 := BackfillUpTo(r, later, styles, |CategoryNames|);
    forall n ensures (n in r2 <==> n in r) && (n in r ==> r2[n] == r[n]) {
      RerunKeepsCollection(cols, first, later, styles, n);
    }
    forall i | 0 <= i < |CategoryNames|
      ensures CountFilled(Selected(Coll(r, CategoryCollection(i))), later, StyleOf(styles, CategoryCollection(i))) == 0
    {
      BackfillUpToAt(cols, first, styles, |CategoryNames|, CategoryCollection(i));
      AmongAll(i, |CategoryNames|);
      BackfilledRerun(Coll(cols, CategoryCollection(i)), first, later, StyleOf(styles, CategoryCollection(i)));
    }
    UpdatedZero(r, later, styles, |CategoryNames|);
  }

  /** One collection under the rerun of the whole job. */
  lemma RerunKeepsCollection(cols: map<string, seq<Article>>, first: Generator, later: Generator, styles: StyleConfig,
                             n: string)
    requires forall i :: 0 <= i < |CategoryNames| ==>
      AllGenerated(Coll(cols, CategoryCollection(i)), first, StyleOf(styles, CategoryCollection(i)))
    ensures var r := BackfillUpTo(cols, first, styles, |CategoryNames|);
      var r2 := BackfillUpTo(r, later, styles, |CategoryNames|);
      (n in r2 <==> n in r) && (n in r ==> r2[n] == r[n])
  {
    var r := BackfillUpTo(cols, first, styles, |CategoryNames|);
    BackfillUpToAt(r, later, styles, |CategoryNames|, n);
    BackfillUpToAt(cols, first, styles, |CategoryNames|, n);
    if AmongFirst(n, |CategoryNames|) {
      var i := AmongIndex(n, |CategoryNames|);
      BackfilledRerun(Coll(cols, n), first, later, StyleOf(styles, n));
    }
  }

  lemma {:induction false} UpdatedZero(cols: map<string, seq<Article>>, gen: Generator, styles: StyleConfig, k: nat)
    requires k <= |CategoryNames|
    requires forall i :: 0 <= i < |CategoryNames| ==>
      CountFilled(Selected(Coll(cols, CategoryCollection(i))), gen, StyleOf(styles, CategoryCollection(i))) == 0
    ensures UpdatedUpTo(cols, gen, styles, k) == 0
  {
    if k > 0 {
      UpdatedZero(cols, gen, styles, k - 1);
    }
  }
}
