/** Player ids and the `player_id` column of `Tracker.player_df`, which
    `_validate_player_df` keeps free of duplicates and sorted. */
module PlayerIds {
  import opened Wrappers

  /** Python's `<` on `str`: lexicographic by code point, a proper prefix
      before the longer string. */
  predicate LexLess(a: string, b: string)
    decreases |a|
  {
    if a == [] then b != []
    else if b == [] then false
    else if a[0] != b[0] then a[0] < b[0]
    else LexLess(a[1..], b[1..])
  }

  lemma {:induction false} LexLessIrreflexive(a: string)
    ensures !LexLess(a, a)
    decreases |a|
  {
    if a != [] {
      LexLessIrreflexive(a[1..]);
    }
  }

  lemma {:induction false} LexLessTransitive(a: string, b: string, c: string)
    requires LexLess(a, b) && LexLess(b, c)
    ensures LexLess(a, c)
    decreases |a|
  {
    if a != [] && a[0] == b[0] && b[0] == c[0] {
      LexLessTransitive(a[1..], b[1..], c[1..]);
    }
  }

  /** Two different strings are always ordered one way or the other. */
  lemma {:induction false} LexLessTotal(a: string, b: string)
    ensures a == b || LexLess(a, b) || LexLess(b, a)
    decreases |a|
  {
    if a != [] && b != [] && a[0] == b[0] {
      LexLessTotal(a[1..], b[1..]);
      if a[1..] == b[1..] {
        assert a == [a[0]] + a[1..] && b == [b[0]] + b[1..];
      }
    }
  }

  lemma LexLessAsymmetric(a: string, b: string)
    requires LexLess(a, b)
    ensures !LexLess(b, a)
  {
    if LexLess(b, a) {
      LexLessTransitive(a, b, a);
      LexLessIrreflexive(a);
    }
  }

  predicate StrictlySorted(ids: seq<string>)
  {
    forall i, j :: 0 <= i < j < |ids| ==> LexLess(ids[i], ids[j])
  }

  /** `Series.is_unique`. */
  predicate Unique(ids: seq<string>)
  {
    forall i, j :: 0 <= i < j < |ids| ==> ids[i] != ids[j]
  }

  lemma SortedUnique(ids: seq<string>)
    requires StrictlySorted(ids)
    ensures Unique(ids)
  {
    forall i, j | 0 <= i < j < |ids|
      ensures ids[i] != ids[j]
    {
      if ids[i] == ids[j] {
        LexLessIrreflexive(ids[i]);
      }
    }
  }

  /** Places a new id in a sorted column: the column that `pd.concat`
      followed by `sort_values("player_id")` produces. */
  function Insert(ids: seq<string>, id: string): (r: seq<string>)
    requires StrictlySorted(ids) && id !in ids
    ensures StrictlySorted(r)
    ensures multiset(r) == multiset(ids) + multiset{id}
  {
    if ids == [] then [id]
    else if LexLess(id, ids[0]) then
      InsertFront(ids, id);
      [id] + ids
    else
      LexLessTotal(id, ids[0]);
      var rest := Insert(ids[1..], id);
      InsertAfter(ids, id, rest);
      [ids[0]] + rest
  }

  lemma InsertFront(ids: seq<string>, id: string)
    requires StrictlySorted(ids) && ids != [] && LexLess(id, ids[0])
    ensures StrictlySorted([id] + ids)
  {
    forall j | 0 < j < |ids|
      ensures LexLess(id, ids[j])
    {
      LexLessTransitive(id, ids[0], ids[j]);
    }
  }

  lemma InsertAfter(ids: seq<string>, id: string, rest: seq<string>)
    requires StrictlySorted(ids) && ids != [] && LexLess(ids[0], id)
    requires StrictlySorted(rest) && multiset(rest) == multiset(ids[1..]) + multiset{id}
    ensures StrictlySorted([ids[0]] + rest)
    ensures multiset([ids[0]] + rest) == multiset(ids) + multiset{id}
  {
    assert ids == [ids[0]] + ids[1..];
    forall j | 0 <= j < |rest|
      ensures LexLess(ids[0], rest[j])
    {
      assert rest[j] in multiset(rest);
      if rest[j] != id {
        assert rest[j] in ids[1..];
      }
    }
  }

  /** `sort_values("player_id")` on a column without duplicates. */
  function SortIds(ids: seq<string>): (r: seq<string>)
    requires Unique(ids)
    ensures StrictlySorted(r)
    ensures multiset(r) == multiset(ids)
  {
    if ids == [] then []
    else
      var n := |ids| - 1;
      assert ids == ids[..n] + [ids[n]];
      var sorted := SortIds(ids[..n]);
      assert ids[n] !in multiset(sorted);
      Insert(sorted, ids[n])
  }

  /** Dropping the first id from a column drops one copy of it. */
  lemma MultisetTail<T>(a: seq<T>)
    requires a != []
    ensures multiset(a[1..]) == multiset(a) - multiset{a[0]}
  {
    assert a == [a[0]] + a[1..];
  }

  /** Two sorted columns holding the same ids start with the same id. */
  lemma SameFirst(a: seq<string>, b: seq<string>)
    requires StrictlySorted(a) && StrictlySorted(b) && multiset(a) == multiset(b)
    requires a != [] && b != []
    ensures a[0] == b[0]
  {
    assert a[0] in multiset(b) && b[0] in multiset(a);
    if a[0] != b[0] {
      var i :| 0 <= i < |b| && b[i] == a[0];
      var j :| 0 <= j < |a| && a[j] == b[0];
      LexLessAsymmetric(a[0], b[0]);
    }
  }

  /** A sorted column without duplicates is determined by its ids, so every
      correct sort (stable or not) yields the same column. */
  lemma {:induction false} SortedColumnUnique(a: seq<string>, b: seq<string>)
    requires StrictlySorted(a) && StrictlySorted(b) && multiset(a) == multiset(b)
    ensures a == b
    decreases |a|
  {
    if a != [] {
      assert |b| == |a| by {
        assert |multiset(a)| == |multiset(b)|;
      }
      SameFirst(a, b);
      MultisetTail(a);
      MultisetTail(b);
      SortedColumnUnique(a[1..], b[1..]);
      assert a == [a[0]] + a[1..] && b == [b[0]] + b[1..];
    }
  }

  /** `_validate_player_df` on an id column: a duplicate raises, otherwise the
      column comes back sorted. */
  datatype IdError = DuplicatePlayerIds

  function ValidateIds(ids: seq<string>): (r: Result<seq<string>, IdError>)
    ensures r.Failure? <==> !Unique(ids)
    ensures r.Success? ==> StrictlySorted(r.value) && multiset(r.value) == multiset(ids)
  {
    if Unique(ids) then Success(SortIds(ids)) else Failure(DuplicatePlayerIds)
  }

  /** Appending a new id to a sorted column and validating it yields the
      column with the id at its sorted place. */
  lemma InsertValidated(ids: seq<string>, id: string)
    requires StrictlySorted(ids) && id !in ids
    ensures ValidateIds(ids + [id]) == Success(Insert(ids, id))
    ensures forall x :: x in Insert(ids, id) <==> x in ids || x == id
  {
    SortedUnique(ids);
    assert Unique(ids + [id]);
    SortedColumnUnique(SortIds(ids + [id]), Insert(ids, id));
    var r := Insert(ids, id);
    forall x
      ensures x in r <==> x in ids || x == id
    {
      assert x in r <==> x in multiset(r);
      assert x in ids <==> x in multiset(ids);
    }
  }
}
