/**
 * The fixed category table (display name -> feed section) and the rule that
 * derives a storage collection name from a display name.
 */
module Categories {
  import opened Text

  /** Display names, in the table's insertion order (services.py:12-15). */
  const CategoryNames: seq<string> :=
    ["World News", "Politics", "Tech", "Business", "Sports", "Entertainment"]

  /**
   * `get_collection_name`: lower-case the name, then replace each space by `_`.
   */
  function CollectionName(category: string): (r: string)
    ensures |r| == |category|
    ensures ' ' !in r
    ensures forall x :: x in r ==> !IsUpper(x)
    ensures forall i :: 0 <= i < |r| ==>
      r[i] == if category[i] == ' ' then '_' else Lower(category[i])
  {
    ReplaceChar(LowerString(category), ' ', '_')
  }

  /** The collection of the i-th category. */
  function CategoryCollection(i: nat): string
    requires i < |CategoryNames|
  {
    CollectionName(CategoryNames[i])
  }

  /** Position of a display name in the table, or -1 when it is not a category. */
  function IndexOf(name: string): (r: int)
    ensures -1 <= r < |CategoryNames|
    ensures r >= 0 ==> CategoryNames[r] == name
  {
    IndexFrom(name, 0)
  }

  function IndexFrom(name: string, i: nat): (r: int)
    requires i <= |CategoryNames|
    ensures -1 <= r < |CategoryNames|
    ensures r >= 0 ==> i <= r && CategoryNames[r] == name
    decreases |CategoryNames| - i
  {
    if i == |CategoryNames| then -1
    else if CategoryNames[i] == name then i
    else IndexFrom(name, i + 1)
  }

  /** The search from `i` finds every name at or after `i`. */
  lemma {:induction false} IndexFromFound(name: string, i: nat)
    requires i <= |CategoryNames|
    ensures IndexFrom(name, i) == -1 <==> name !in CategoryNames[i..]
    decreases |CategoryNames| - i
  {
    if i < |CategoryNames| {
      IndexFromFound(name, i + 1);
      assert CategoryNames[i..] == [CategoryNames[i]] + CategoryNames[i + 1..];
    }
  }

  /** IndexOf answers -1 exactly for the names that are not categories. */
  lemma IndexOfFound(name: string)
    ensures IndexOf(name) == -1 <==> name !in CategoryNames
  {
    IndexFromFound(name, 0);
    assert CategoryNames[0..] == CategoryNames;
  }

  /** The six display names are distinct, so IndexOf inverts indexing. */
  lemma IndexOfCategory(i: nat)
    requires i < |CategoryNames|
    ensures IndexOf(CategoryNames[i]) == i
  {
    IndexOfFound(CategoryNames[i]);
    var r := IndexOf(CategoryNames[i]);
    assert CategoryNames[r] == CategoryNames[i];
    NamesDistinct();
  }

  lemma NamesDistinct()
    ensures forall i, j :: 0 <= i < j < |CategoryNames| ==> CategoryNames[i] != CategoryNames[j]
  {
  }

  /** The length and the first letter of each category's collection name. */
  lemma CollectionShape(i: nat)
    requires i < |CategoryNames|
    ensures |CategoryCollection(i)| == [10, 8, 4, 8, 6, 13][i]
    ensures CategoryCollection(i)[0] == "wptbse"[i]
  {
    var n := CategoryNames[i];
    assert n[0] == "WPTBSE"[i];
  }

  /**
   * Distinct categories are stored in distinct collections, and none of them
   * is the subscriber collection.
   */
  lemma CollectionNamesDistinct()
    ensures forall i, j :: 0 <= i < j < |CategoryNames| ==>
      CategoryCollection(i) != CategoryCollection(j)
    ensures forall i :: 0 <= i < |CategoryNames| ==> CategoryCollection(i) != "subscribers"
  {
    // The six first letters differ; "sports" and "subscribers" differ in length.
    forall i, j | 0 <= i < j < |CategoryNames|
      ensures CategoryCollection(i) != CategoryCollection(j)
    {
      CollectionShape(i);
      CollectionShape(j);
      assert CategoryCollection(i)[0] != CategoryCollection(j)[0];
    }
    forall i | 0 <= i < |CategoryNames| ensures CategoryCollection(i) != "subscribers" {
      CollectionShape(i);
    }
  }

  /** `name` is the collection of one of the first `k` categories. */
  predicate AmongFirst(name: string, k: nat)
    requires k <= |CategoryNames|
  {
    k > 0 && (CategoryCollection(k - 1) == name || AmongFirst(name, k - 1))
  }

  /** The collection of category `k` is not among those before it. */
  lemma {:induction false} NotAmongEarlier(k: nat, j: nat)
    requires j <= k < |CategoryNames|
    ensures !AmongFirst(CategoryCollection(k), j)
  {
    if j > 0 {
      CollectionNamesDistinct();
      NotAmongEarlier(k, j - 1);
    }
  }

  /** Every category collection is among the first six. */
  lemma {:induction false} AmongAll(i: nat, k: nat)
    requires i < k <= |CategoryNames|
    ensures AmongFirst(CategoryCollection(i), k)
  {
    if i < k - 1 {
      AmongAll(i, k - 1);
    }
  }

  /** A collection among the first `k` is the collection of one of those categories. */
  lemma {:induction false} AmongIndex(name: string, k: nat) returns (i: nat)
    requires k <= |CategoryNames| && AmongFirst(name, k)
    ensures i < k && CategoryCollection(i) == name
  {
    if CategoryCollection(k - 1) == name {
      i := k - 1;
    } else {
      i := AmongIndex(name, k - 1);
    }
  }
}
