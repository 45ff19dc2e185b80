/** The library's stable sort by key. */
module Sorting {
  predicate Ordered<T>(s: seq<T>, key: T -> int) {
    forall i, j | 0 <= i < j < |s| :: key(s[i]) <= key(s[j])
  }

  function Insert<T>(s: seq<T>, e: T, key: T -> int): seq<T> {
    if s == [] || key(s[|s| - 1]) <= key(e) then s + [e]
    else Insert(s[..|s| - 1], e, key) + [s[|s| - 1]]
  }

  function SortBy<T>(s: seq<T>, key: T -> int): seq<T> {
    if s == [] then [] else Insert(SortBy(s[..|s| - 1], key), s[|s| - 1], key)
  }

  lemma {:induction false} InsertKeeps<T>(s: seq<T>, e: T, key: T -> int)
    ensures multiset(Insert(s, e, key)) == multiset(s) + multiset{e}
  {
    if s != [] && key(s[|s| - 1]) > key(e) {
      var front, last := s[..|s| - 1], s[|s| - 1];
      assert s == front + [last];
      InsertKeeps(front, e, key);
    }
  }

  lemma MemberOf<T>(r: seq<T>, i: nat, front: seq<T>, e: T)
    requires i < |r| && multiset(r) == multiset(front) + multiset{e}
    ensures r[i] == e || exists k | 0 <= k < |front| :: front[k] == r[i]
  {
    assert r[i] in multiset(r);
    assert r[i] in multiset(front) ==> r[i] in front;
  }

  lemma {:induction false} InsertOrders<T>(s: seq<T>, e: T, key: T -> int)
    requires Ordered(s, key)
    ensures Ordered(Insert(s, e, key), key)
  {
    if s != [] && key(s[|s| - 1]) > key(e) {
      var front, last := s[..|s| - 1], s[|s| - 1];
      InsertOrders(front, e, key);
      InsertKeeps(front, e, key);
      var r := Insert(front, e, key);
      forall i | 0 <= i < |r|
        ensures key(r[i]) <= key(last)
      {
        MemberOf(r, i, front, e);
      }
    }
  }

  lemma {:induction false} SortSorts<T>(s: seq<T>, key: T -> int)
    ensures Ordered(SortBy(s, key), key) && multiset(SortBy(s, key)) == multiset(s)
    ensures |SortBy(s, key)| == |s|
  {
    if s != [] {
      var front, last := s[..|s| - 1], s[|s| - 1];
      assert s == front + [last];
      SortSorts(front, key);
      InsertKeeps(SortBy(front, key), last, key);
      InsertOrders(SortBy(front, key), last, key);
    }
    assert |multiset(SortBy(s, key))| == |multiset(s)|;
  }

  lemma SameMembers<T>(a: seq<T>, b: seq<T>)
    requires multiset(a) == multiset(b)
    ensures forall x :: x in a <==> x in b
  {
    forall x
      ensures x in a <==> x in b
    {
      assert x in a <==> x in multiset(a);
      assert x in b <==> x in multiset(b);
    }
  }
}
