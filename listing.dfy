/** Ordering the rows a query selects: the `orderBy` of a `findMany`. Rows are kept in a map
    from id to record; a listing is a sequence of distinct keys ordered by a rank on the record. */
module Listing {
  import opened Common

  predicate Distinct(ids: seq<Id>) {
    forall i, j :: 0 <= i < j < |ids| ==> ids[i] != ids[j]
  }

  predicate AllIn<T>(ids: seq<Id>, m: map<Id, T>) {
    forall i :: 0 <= i < |ids| ==> ids[i] in m
  }

  /** The records behind `ids` have non-decreasing rank. */
  predicate SortedByRank<T>(ids: seq<Id>, m: map<Id, T>, rank: T -> int)
    requires AllIn(ids, m)
  {
    forall i, j :: 0 <= i < j < |ids| ==> rank(m[ids[i]]) <= rank(m[ids[j]])
  }

  /** Inserts `x` before the first key whose record ranks at least as high. */
  function Insert<T>(ids: seq<Id>, x: Id, m: map<Id, T>, rank: T -> int): (r: seq<Id>)
    requires x in m && AllIn(ids, m)
    ensures |r| == |ids| + 1 && AllIn(r, m)
  {
    if ids == [] || rank(m[x]) <= rank(m[ids[0]]) then
      [x] + ids
    else
      [ids[0]] + Insert(ids[1..], x, m, rank)
  }

  /** Insertion adds exactly `x` to the keys. */
  lemma {:induction false} InsertMembers<T>(ids: seq<Id>, x: Id, m: map<Id, T>, rank: T -> int)
    requires x in m && AllIn(ids, m)
    ensures forall y :: y in Insert(ids, x, m, rank) <==> y == x || y in ids
  {
    if ids != [] && rank(m[ids[0]]) < rank(m[x]) {
      InsertMembers(ids[1..], x, m, rank);
      assert ids == [ids[0]] + ids[1..];
    }
  }

  /** Inserting a new key into a list without repeats gives a list without repeats. */
  lemma {:induction false} InsertDistinct<T>(ids: seq<Id>, x: Id, m: map<Id, T>, rank: T -> int)
    requires x in m && AllIn(ids, m) && Distinct(ids) && x !in ids
    ensures Distinct(Insert(ids, x, m, rank))
  {
    if ids != [] && rank(m[ids[0]]) < rank(m[x]) {
      InsertDistinct(ids[1..], x, m, rank);
      InsertMembers(ids[1..], x, m, rank);
      var tail := Insert(ids[1..], x, m, rank);
      forall j | 0 <= j < |tail|
        ensures tail[j] != ids[0]
      {
        assert tail[j] in tail;
      }
    }
  }

  /** Insertion keeps a list sorted by rank. */
  lemma {:induction false} InsertSorted<T>(ids: seq<Id>, x: Id, m: map<Id, T>, rank: T -> int)
    requires x in m && AllIn(ids, m) && SortedByRank(ids, m, rank)
    ensures SortedByRank(Insert(ids, x, m, rank), m, rank)
  {
    if ids != [] && rank(m[ids[0]]) < rank(m[x]) {
      InsertSorted(ids[1..], x, m, rank);
      InsertMembers(ids[1..], x, m, rank);
      var tail := Insert(ids[1..], x, m, rank);
      forall j | 0 <= j < |tail|
        ensures rank(m[ids[0]]) <= rank(m[tail[j]])
      {
        assert tail[j] in tail;
        if tail[j] != x {
          var k :| 0 <= k < |ids[1..]| && ids[1..][k] == tail[j];
          assert ids[k + 1] == tail[j];
        }
      }
    }
  }

  /** Every key of `m`, once, in non-decreasing rank order. */
  method SortKeys<T>(m: map<Id, T>, rank: T -> int) returns (ids: seq<Id>)
    ensures AllIn(ids, m)
    ensures forall k :: k in m <==> k in ids
    ensures Distinct(ids)
    ensures SortedByRank(ids, m, rank)
  {
    ids := [];
    var rest := m.Keys;
    while rest != {}
      invariant rest <= m.Keys
      invariant AllIn(ids, m)
      invariant forall k :: k in m ==> (k in ids <==> k !in rest)
      invariant Distinct(ids)
      invariant SortedByRank(ids, m, rank)
      decreases rest
    {
      var k :| k in rest;
      InsertMembers(ids, k, m, rank);
      InsertDistinct(ids, k, m, rank);
      InsertSorted(ids, k, m, rank);
      ids := Insert(ids, k, m, rank);
      rest := rest - {k};
    }
  }
}
