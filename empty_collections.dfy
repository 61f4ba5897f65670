/**
 * `delete_all_articles`: a one-off maintenance job. It asks for a
 * confirmation, gives up unless the answer lower-cases to `yes`, gives up
 * when the store cannot be reached, and otherwise empties every category
 * collection with `delete_many({})`, adding up the deleted counts.
 */
module EmptyCollections {
  import opened Text
  import opened Categories
  import opened Store

  /** How the job ends. */
  datatype DeleteOutcome = Aborted | NotConnected | Deleted(total: nat)

  /** `confirm.lower() != 'yes'` is the abort test. */
  predicate Confirmed(answer: string)
    ensures Confirmed(answer) <==>
      |answer| == 3 && Lower(answer[0]) == 'y' && Lower(answer[1]) == 'e' && Lower(answer[2]) == 's'
  {
    LowerString(answer) == "yes"
  }

  /** `delete_many({})` on one collection, as a function of the store. */
  function EmptyOne(cols: map<string, seq<Article>>, name: string): map<string, seq<Article>> {
    if name in cols then cols[name := []] else cols
  }

  /** The store once the first `k` category collections are emptied, in table order. */
  function EmptiedUpTo(cols: map<string, seq<Article>>, k: nat): map<string, seq<Article>>
    requires k <= |CategoryNames|
  {
    if k == 0 then cols else EmptyOne(EmptiedUpTo(cols, k - 1), CategoryCollection(k - 1))
  }

  /**
   * After the first `k` categories, the collections of those categories are
   * empty, every other collection is as it was, and no collection is added
   * or removed.
   */
  lemma {:induction false} EmptiedUpToAt(cols: map<string, seq<Article>>, k: nat, n: string)
    requires k <= |CategoryNames|
    ensures n in EmptiedUpTo(cols, k) <==> n in cols
    ensures Coll(EmptiedUpTo(cols, k), n) == if AmongFirst(n, k) then [] else Coll(cols, n)
  {
    if k > 0 {
      var name := CategoryCollection(k - 1);
      EmptiedUpToAt(cols, k - 1, n);
      EmptyOneAt(EmptiedUpTo(cols, k - 1), name, n);
      if n == name {
        NotAmongEarlier(k - 1, k - 1);
      }
    }
  }

  /** `delete_many({})` on `name` empties that collection and no other. */
  lemma EmptyOneAt(cols: map<string, seq<Article>>, name: string, n: string)
    ensures n in EmptyOne(cols, name) <==> n in cols
    ensures Coll(EmptyOne(cols, name), n) == if n == name then [] else Coll(cols, n)
  {
  }

  /** The loop's invariant carries over one category. */
  lemma CategoryEmptied(cols: map<string, seq<Article>>, prev: map<string, seq<Article>>,
                        total: nat, deleted: nat, k: nat)
    requires k < |CategoryNames|
    requires prev == EmptiedUpTo(cols, k) && total == SizesUpTo(cols, k)
    requires deleted == |Coll(prev, CategoryCollection(k))|
    ensures total + deleted == SizesUpTo(cols, k + 1)
  {
    EmptiedUpToAt(cols, k, CategoryCollection(k));
    NotAmongEarlier(k, k);
  }

  /** `delete_all_articles` (empty_collections.py:11-50). */
  method DeleteAllArticles(db: Database, answer: string, connected: bool) returns (outcome: DeleteOutcome)
    requires db.Valid()
    modifies db
    ensures db.Valid()
    ensures db.subscribers == old(db.subscribers) && db.nextId == old(db.nextId)
    ensures outcome.Aborted? <==> !Confirmed(answer)
    ensures outcome.NotConnected? <==> Confirmed(answer) && !connected
    ensures !outcome.Deleted? ==> db.collections == old(db.collections)
    ensures outcome.Deleted? ==>
      db.collections == EmptiedUpTo(old(db.collections), |CategoryNames|) &&
      outcome.total == CategoryTotal(old(db.collections))
  {
    if LowerString(answer) != "yes" {
      return Aborted;
    }
    if !connected {
      return NotConnected;
    }
    var total := DeleteCategories(db);
    outcome := Deleted(total);
  }

  /** The loop of `delete_all_articles`: `delete_many({})` on each category collection in table order. */
  method DeleteCategories(db: Database) returns (total: nat)
    requires db.Valid()
    modifies db
    ensures db.Valid()
    ensures db.subscribers == old(db.subscribers) && db.nextId == old(db.nextId)
    ensures db.collections == EmptiedUpTo(old(db.collections), |CategoryNames|)
    ensures total == CategoryTotal(old(db.collections))
  {
    ghost var cols := db.collections;
    total := 0;
    var k := 0;
    while k < |CategoryNames|
      invariant db.Valid() && 0 <= k <= |CategoryNames|
      invariant db.subscribers == old(db.subscribers) && db.nextId == old(db.nextId)
      invariant db.collections == EmptiedUpTo(cols, k)
      invariant total == SizesUpTo(cols, k)
    {
      ghost var prev := db.collections;
      var deleted := db.DeleteMany(CategoryCollection(k));
      CategoryEmptied(cols, prev, total, deleted, k);
      total := total + deleted;
      k := k + 1;
    }
  }

  /**
   * After the job every category collection reads as empty, the category
   * total is zero, every other collection is kept, and no collection is
   * added or removed.
   */
  lemma EmptiedResult(cols: map<string, seq<Article>>)
    ensures var r := EmptiedUpTo(cols, |CategoryNames|);
      r.Keys == cols.Keys &&
      (forall i :: 0 <= i < |CategoryNames| ==> Coll(r, CategoryCollection(i)) == []) &&
      CategoryTotal(r) == 0 &&
      (forall n :: !AmongFirst(n, |CategoryNames|) ==> Coll(r, n) == Coll(cols, n))
  {
    var r := EmptiedUpTo(cols, |CategoryNames|);
    forall n ensures n in r <==> n in cols {
      EmptiedUpToAt(cols, |CategoryNames|, n);
    }
    forall i | 0 <= i < |CategoryNames| ensures Coll(r, CategoryCollection(i)) == [] {
      EmptiedUpToAt(cols, |CategoryNames|, CategoryCollection(i));
      AmongAll(i, |CategoryNames|);
    }
    forall n | !AmongFirst(n, |CategoryNames|) ensures Coll(r, n) == Coll(cols, n) {
      EmptiedUpToAt(cols, |CategoryNames|, n);
    }
    SizesZero(r, |CategoryNames|);
  }

  lemma {:induction false} SizesZero(cols: map<string, seq<Article>>, k: nat)
    requires k <= |CategoryNames|
    requires forall i :: 0 <= i < |CategoryNames| ==> Coll(cols, CategoryCollection(i)) == []
    ensures SizesUpTo(cols, k) == 0
  {
    if k > 0 {
      SizesZero(cols, k - 1);
    }
  }

  /** Running the job again on an emptied store deletes nothing. */
  lemma RerunDeletesNothing(cols: map<string, seq<Article>>)
    ensures CategoryTotal(EmptiedUpTo(cols, |CategoryNames|)) == 0
    ensures EmptiedUpTo(EmptiedUpTo(cols, |CategoryNames|), |CategoryNames|) == EmptiedUpTo(cols, |CategoryNames|)
  {
    EmptiedResult(cols);
    var r := EmptiedUpTo(cols, |CategoryNames|);
    var r2 := EmptiedUpTo(r, |CategoryNames|);
    forall n ensures (n in r2 <==> n in r) && (n in r ==> r2[n] == r[n]) {
      EmptiedUpToAt(r, |CategoryNames|, n);
      EmptiedUpToAt(cols, |CategoryNames|, n);
    }
  }

  /** The answer is read without regard to letter case. */
  lemma ConfirmedIgnoresCase(answer: string)
    ensures Confirmed(answer) <==> Confirmed(LowerString(answer))
  {
    LowerTwice(answer);
  }
}
