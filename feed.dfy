/**
 * `fetch_articles_by_category`: one request per category, in table order,
 * for the newest item. The responses are inputs; a request that raises a
 * request error is skipped, and a result lacking its headline or body text
 * raises a key error that escapes the whole call.
 */
module Feed {
  import opened Wrappers
  import opened Categories

  /** The `fields` of the first search result. */
  datatype FeedFields = FeedFields(headline: Option<string>, bodyText: Option<string>, thumbnail: Option<string>)

  /** The answer to one category's request. */
  datatype FeedResponse = RequestFailed | Answered(results: seq<FeedFields>)

  /** One raw feed item, tagged with the category's display name. */
  datatype RawItem = RawItem(headline: string, body: string, category: string, thumbnail: Option<string>)

  /** The items collected, or the key error that escaped. */
  datatype FetchOutcome = Fetched(items: seq<RawItem>) | Raised

  /** `acc` followed by what the remaining categories contribute. */
  function Prepend(acc: seq<RawItem>, rest: FetchOutcome): FetchOutcome {
    match rest
    case Raised => Raised
    case Fetched(items) => Fetched(acc + items)
  }

  /** What category `i` contributes on its own: nothing, one item, or the key error. */
  function ItemOf(responses: seq<FeedResponse>, i: nat): (r: FetchOutcome)
    requires |responses| == |CategoryNames| && i < |CategoryNames|
    ensures r.Raised? <==>
      responses[i].Answered? && responses[i].results != [] &&
      (responses[i].results[0].headline.None? || responses[i].results[0].bodyText.None?)
    ensures r.Fetched? ==> |r.items| <= 1 && forall x :: x in r.items ==> x.category == CategoryNames[i]
    ensures r.Fetched? && r.items != [] ==>
      responses[i].Answered? && responses[i].results != [] &&
      var f := responses[i].results[0];
      f.headline.Some? && f.bodyText.Some? &&
      r.items[0] == RawItem(f.headline.value, f.bodyText.value, CategoryNames[i], f.thumbnail)
    ensures r.Fetched? && r.items == [] ==> responses[i].RequestFailed? || responses[i].results == []
  {
    match responses[i]
    case RequestFailed => Fetched([])
    case Answered(results) =>
      if results == [] then Fetched([])
      else
        var f := results[0];
        if f.headline.None? || f.bodyText.None? then Raised
        else Fetched([RawItem(f.headline.value, f.bodyText.value, CategoryNames[i], f.thumbnail)])
  }

  /** The outcome of the categories from `i` on. */
  function FetchFrom(responses: seq<FeedResponse>, i: nat): FetchOutcome
    requires |responses| == |CategoryNames| && i <= |CategoryNames|
    decreases |CategoryNames| - i
  {
    if i == |CategoryNames| then Fetched([])
    else match ItemOf(responses, i)
      case Raised => Raised
      case Fetched(one) => Prepend(one, FetchFrom(responses, i + 1))
  }

  function FetchAll(responses: seq<FeedResponse>): FetchOutcome
    requires |responses| == |CategoryNames|
  {
    FetchFrom(responses, 0)
  }

  /** The loop of `fetch_articles_by_category`. */
  method FetchArticles(responses: seq<FeedResponse>) returns (r: FetchOutcome)
    requires |responses| == |CategoryNames|
    ensures r == FetchAll(responses)
  {
    var all: seq<RawItem> := [];
    var i := 0;
    while i < |CategoryNames|
      invariant 0 <= i <= |CategoryNames|
      invariant FetchAll(responses) == Prepend(all, FetchFrom(responses, i))
    {
      var one := ItemOf(responses, i);
      if one.Raised? {
        return Raised;
      }
      assert FetchFrom(responses, i) == Prepend(one.items, FetchFrom(responses, i + 1));
      PrependPrepend(all, one.items, FetchFrom(responses, i + 1));
      all := all + one.items;
      i := i + 1;
    }
    assert all + [] == all;
    r := Fetched(all);
  }

  lemma PrependPrepend(a: seq<RawItem>, b: seq<RawItem>, x: FetchOutcome)
    ensures Prepend(a, Prepend(b, x)) == Prepend(a + b, x)
  {
    if x.Fetched? {
      assert a + (b + x.items) == (a + b) + x.items;
    }
  }

  /**
   * At most one item per category from `i` on, tagged with distinct display
   * names in table order.
   */
  predicate OrderedFrom(items: seq<RawItem>, i: nat)
    requires i <= |CategoryNames|
  {
    |items| <= |CategoryNames| - i &&
    (forall a :: 0 <= a < |items| ==> IndexOf(items[a].category) >= i) &&
    (forall a, b :: 0 <= a < b < |items| ==> IndexOf(items[a].category) < IndexOf(items[b].category))
  }

  /** Category `i`'s own item, if any, goes in front of those of the later categories. */
  lemma OrderedCons(one: seq<RawItem>, rest: seq<RawItem>, i: nat)
    requires i < |CategoryNames| && OrderedFrom(rest, i + 1)
    requires one == [] || (|one| == 1 && one[0].category == CategoryNames[i])
    ensures OrderedFrom(one + rest, i)
  {
    if one == [] {
      assert one + rest == rest;
    } else {
      assert one == [one[0]];
      IndexOfCategory(i);
      OrderedConsRanks(one[0], rest, i);
      OrderedConsPairs(one[0], rest, i);
    }
  }

  lemma OrderedConsRanks(x: RawItem, rest: seq<RawItem>, i: nat)
    requires i < |CategoryNames| && OrderedFrom(rest, i + 1) && IndexOf(x.category) == i
    ensures forall a :: 0 <= a < |[x] + rest| ==> IndexOf(([x] + rest)[a].category) >= i
  {
    var items := [x] + rest;
    forall a | 0 <= a < |items| ensures IndexOf(items[a].category) >= i {
      if a > 0 {
        assert items[a] == rest[a - 1];
      }
    }
  }

  lemma OrderedConsPairs(x: RawItem, rest: seq<RawItem>, i: nat)
    requires i < |CategoryNames| && OrderedFrom(rest, i + 1) && IndexOf(x.category) == i
    ensures forall a, b :: 0 <= a < b < |[x] + rest| ==>
      IndexOf(([x] + rest)[a].category) < IndexOf(([x] + rest)[b].category)
  {
    var items := [x] + rest;
    forall a, b | 0 <= a < b < |items| ensures IndexOf(items[a].category) < IndexOf(items[b].category) {
      assert items[b] == rest[b - 1];
      if a > 0 {
        assert items[a] == rest[a - 1];
      }
    }
  }

  /** The items from category `i` on are ordered as `OrderedFrom` says. */
  lemma {:induction false} FetchFromOrdered(responses: seq<FeedResponse>, i: nat)
    requires |responses| == |CategoryNames| && i <= |CategoryNames|
    ensures FetchFrom(responses, i).Fetched? ==> OrderedFrom(FetchFrom(responses, i).items, i)
    decreases |CategoryNames| - i
  {
    if i < |CategoryNames| {
      FetchFromOrdered(responses, i + 1);
      var one := ItemOf(responses, i);
      var rest := FetchFrom(responses, i + 1);
      if one.Fetched? && rest.Fetched? {
        OrderedCons(one.items, rest.items, i);
      }
    }
  }

  /**
   * What the call returns: at most one item per category, at most six in
   * all, in the table's order, each tagged with a display name.
   */
  lemma FetchAllOrdered(responses: seq<FeedResponse>)
    requires |responses| == |CategoryNames|
    ensures FetchAll(responses).Fetched? ==>
      var items := FetchAll(responses).items;
      |items| <= 6 &&
      (forall a :: 0 <= a < |items| ==> items[a].category in CategoryNames) &&
      (forall a, b :: 0 <= a < b < |items| ==>
         IndexOf(items[a].category) < IndexOf(items[b].category) && items[a].category != items[b].category)
  {
    FetchFromOrdered(responses, 0);
  }

  /** The items that are not from category `name`. */
  function Without(items: seq<RawItem>, name: string): (r: seq<RawItem>)
    ensures forall x :: x in r ==> x in items && x.category != name
  {
    if items == [] then []
    else (if items[0].category == name then [] else [items[0]]) + Without(items[1..], name)
  }

  lemma WithoutCons(x: RawItem, t: seq<RawItem>, name: string)
    ensures Without([x] + t, name) == (if x.category == name then [] else [x]) + Without(t, name)
  {
    assert ([x] + t)[0] == x && ([x] + t)[1..] == t;
  }

  lemma {:induction false} WithoutAbsent(items: seq<RawItem>, name: string)
    requires forall a :: 0 <= a < |items| ==> items[a].category != name
    ensures Without(items, name) == items
  {
    if items != [] {
      WithoutAbsent(items[1..], name);
    }
  }

  lemma {:induction false} FetchFromAgree(r1: seq<FeedResponse>, r2: seq<FeedResponse>, i: nat)
    requires |r1| == |r2| == |CategoryNames| && i <= |CategoryNames|
    requires forall j :: i <= j < |CategoryNames| ==> r1[j] == r2[j]
    ensures FetchFrom(r1, i) == FetchFrom(r2, i)
    decreases |CategoryNames| - i
  {
    if i < |CategoryNames| {
      FetchFromAgree(r1, r2, i + 1);
    }
  }

  lemma {:induction false} FetchFromSkip(responses: seq<FeedResponse>, k: nat, i: nat)
    requires |responses| == |CategoryNames| && k < |CategoryNames| && i <= |CategoryNames|
    requires FetchFrom(responses, i).Fetched?
    ensures FetchFrom(responses[k := RequestFailed], i)
         == Fetched(Without(FetchFrom(responses, i).items, CategoryNames[k]))
    decreases |CategoryNames| - i
  {
    if i > k {
      SkipAfter(responses, k, i);
    } else if i == k {
      SkipAt(responses, k);
    } else {
      FetchFromSkip(responses, k, i + 1);
      SkipBefore(responses, k, i);
    }
  }

  /** Past category `k` nothing differs, and no item is from `k`. */
  lemma SkipAfter(responses: seq<FeedResponse>, k: nat, i: nat)
    requires |responses| == |CategoryNames| && k < i <= |CategoryNames|
    requires FetchFrom(responses, i).Fetched?
    ensures FetchFrom(responses[k := RequestFailed], i)
         == Fetched(Without(FetchFrom(responses, i).items, CategoryNames[k]))
  {
    var items := FetchFrom(responses, i).items;
    FetchFromAgree(responses, responses[k := RequestFailed], i);
    FetchFromOrdered(responses, i);
    IndexOfCategory(k);
    WithoutAbsent(items, CategoryNames[k]);
  }

  /** At category `k` its item, if any, is dropped and the rest is unchanged. */
  lemma SkipAt(responses: seq<FeedResponse>, k: nat)
    requires |responses| == |CategoryNames| && k < |CategoryNames|
    requires FetchFrom(responses, k).Fetched?
    ensures FetchFrom(responses[k := RequestFailed], k)
         == Fetched(Without(FetchFrom(responses, k).items, CategoryNames[k]))
  {
    SkipAtFailed(responses, k);
    SkipAtWithout(responses, k);
  }

  /** A failed request at `k` contributes nothing; the later ones are as before. */
  lemma SkipAtFailed(responses: seq<FeedResponse>, k: nat)
    requires |responses| == |CategoryNames| && k < |CategoryNames|
    ensures FetchFrom(responses[k := RequestFailed], k) == FetchFrom(responses, k + 1)
  {
    var failed := responses[k := RequestFailed];
    FetchFromAgree(responses, failed, k + 1);
    assert ItemOf(failed, k) == Fetched([]);
    var rest := FetchFrom(failed, k + 1);
    if rest.Fetched? {
      assert [] + rest.items == rest.items;
    }
  }

  /** Dropping category `k`'s item from the outcome at `k` leaves the outcome after `k`. */
  lemma SkipAtWithout(responses: seq<FeedResponse>, k: nat)
    requires |responses| == |CategoryNames| && k < |CategoryNames|
    requires FetchFrom(responses, k).Fetched?
    ensures FetchFrom(responses, k + 1).Fetched?
    ensures Without(FetchFrom(responses, k).items, CategoryNames[k]) == FetchFrom(responses, k + 1).items
  {
    var items := FetchFrom(responses, k).items;
    var one := ItemOf(responses, k).items;
    var rest := FetchFrom(responses, k + 1).items;
    assert items == one + rest;
    FetchFromOrdered(responses, k + 1);
    IndexOfCategory(k);
    WithoutAbsent(rest, CategoryNames[k]);
    if one == [] {
      assert items == rest;
    } else {
      WithoutCons(one[0], rest, CategoryNames[k]);
    }
  }

  /** Before category `k` the item of category `i` is kept. */
  lemma SkipBefore(responses: seq<FeedResponse>, k: nat, i: nat)
    requires |responses| == |CategoryNames| && i < k < |CategoryNames|
    requires FetchFrom(responses, i).Fetched?
    requires FetchFrom(responses[k := RequestFailed], i + 1)
          == Fetched(Without(FetchFrom(responses, i + 1).items, CategoryNames[k]))
    ensures FetchFrom(responses[k := RequestFailed], i)
         == Fetched(Without(FetchFrom(responses, i).items, CategoryNames[k]))
  {
    var failed := responses[k := RequestFailed];
    var items := FetchFrom(responses, i).items;
    var rest := FetchFrom(responses, i + 1).items;
    var name := CategoryNames[k];
    assert ItemOf(failed, i) == ItemOf(responses, i);
    var one := ItemOf(responses, i).items;
    assert FetchFrom(failed, i) == Prepend(one, FetchFrom(failed, i + 1));
    assert FetchFrom(failed, i) == Fetched(one + Without(rest, name));
    assert items == one + rest;
    if one == [] {
      assert items == rest;
    } else {
      NamesDistinct();
      assert items[0].category == CategoryNames[i] != name;
      assert items[1..] == rest;
      assert Without(items, name) == [items[0]] + Without(rest, name);
      assert one == [items[0]];
    }
  }

  /**
   * Isolation: turning one category's answer into a request error removes
   * exactly that category's item and leaves every other item as it was.
   */
  lemma FetchSkipsFailedCategory(responses: seq<FeedResponse>, k: nat)
    requires |responses| == |CategoryNames| && k < |CategoryNames|
    requires FetchAll(responses).Fetched?
    ensures FetchAll(responses[k := RequestFailed]) == Fetched(Without(FetchAll(responses).items, CategoryNames[k]))
  {
    FetchFromSkip(responses, k, 0);
  }
}
