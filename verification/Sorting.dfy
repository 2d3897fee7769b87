/** Sorting of lists without repetitions: map keys, and report entries with distinct keys. */
module Sorting {

  ghost predicate StrictOrder<T(!new)>(less: (T, T) -> bool) {
    && (forall x :: !less(x, x))
    && (forall x, y, z :: less(x, y) && less(y, z) ==> less(x, z))
  }

  /** Any two elements of the list can be compared. */
  ghost predicate Comparable<T>(less: (T, T) -> bool, s: seq<T>) {
    forall x, y :: x in s && y in s ==> x == y || less(x, y) || less(y, x)
  }

  ghost predicate Distinct<T>(s: seq<T>) {
    forall i, j :: 0 <= i < j < |s| ==> s[i] != s[j]
  }

  ghost predicate Ascending<T>(less: (T, T) -> bool, s: seq<T>) {
    forall i, j :: 0 <= i < j < |s| ==> less(s[i], s[j])
  }

  function Insert<T(!new)>(less: (T, T) -> bool, x: T, s: seq<T>): (r: seq<T>)
    requires StrictOrder(less) && Ascending(less, s) && x !in s && Comparable(less, [x] + s)
    ensures Ascending(less, r) && |r| == |s| + 1
    ensures forall y :: y in r <==> y == x || y in s
  {
    if s == [] then [x]
    else if less(s[0], x) then
      assert forall y :: y in [x] + s[1..] ==> y in [x] + s;
      var t := Insert(less, x, s[1..]);
      assert forall y :: y in t ==> less(s[0], y);
      [s[0]] + t
    else
      assert s[0] in [x] + s && x in [x] + s;
      [x] + s
  }

  /** slices.Sort, sort.Strings and sort.Slice: the same elements in ascending order. */
  function Sort<T(!new)>(less: (T, T) -> bool, s: seq<T>): (r: seq<T>)
    requires StrictOrder(less) && Distinct(s) && Comparable(less, s)
    ensures Ascending(less, r) && |r| == |s|
    ensures forall y :: y in r <==> y in s
  {
    if s == [] then [] else
      var t := Sort(less, s[1..]);
      assert forall y :: y in [s[0]] + t ==> y in s;
      Insert(less, s[0], t)
  }

  /** No element is less than one before it; elements that cannot be told apart may stand in any order. */
  ghost predicate InOrder<T>(less: (T, T) -> bool, s: seq<T>) {
    forall i, j :: 0 <= i < j < |s| ==> !less(s[j], s[i])
  }

  lemma PutFirst<T>(less: (T, T) -> bool, x: T, s: seq<T>)
    requires InOrder(less, s) && forall y :: y in s ==> !less(y, x)
    ensures InOrder(less, [x] + s) && multiset([x] + s) == multiset(s) + multiset{x}
  {
  }

  function InsertInOrder<T(!new)>(less: (T, T) -> bool, x: T, s: seq<T>): (r: seq<T>)
    requires StrictOrder(less) && InOrder(less, s)
    ensures InOrder(less, r) && multiset(r) == multiset(s) + multiset{x}
  {
    if s == [] then [x]
    else if less(x, s[0]) then
      NotBelow(less, x, s);
      PutFirst(less, x, s);
      [x] + s
    else
      var t := InsertInOrder(less, x, s[1..]);
      SameMembers(x, s[1..], t);
      assert s == [s[0]] + s[1..];
      PutFirst(less, s[0], t);
      [s[0]] + t
  }

  lemma NotBelow<T(!new)>(less: (T, T) -> bool, x: T, s: seq<T>)
    requires StrictOrder(less) && InOrder(less, s) && s != [] && less(x, s[0])
    ensures forall y :: y in s ==> !less(y, x)
  {
  }

  lemma SameMembers<T>(x: T, s: seq<T>, t: seq<T>)
    requires multiset(t) == multiset(s) + multiset{x}
    ensures forall y :: y in t ==> y == x || y in s
  {
    forall y | y in t ensures y == x || y in s {
      assert y in multiset(t);
    }
  }

  /** sort.Slice on a list that may hold elements that compare equal. */
  function SortInOrder<T(!new)>(less: (T, T) -> bool, s: seq<T>): (r: seq<T>)
    requires StrictOrder(less)
    ensures InOrder(less, r) && multiset(r) == multiset(s)
  {
    if s == [] then [] else
      assert s == [s[0]] + s[1..];
      InsertInOrder(less, s[0], SortInOrder(less, s[1..]))
  }

  /**
   An ascending list a whose elements are the smallest of the ascending list b is its front;
   so an ascending list is fixed by its elements.
   */
  lemma {:induction false} AscendingFront<T(!new)>(less: (T, T) -> bool, a: seq<T>, b: seq<T>)
    requires StrictOrder(less) && Ascending(less, a) && Ascending(less, b)
    requires forall x :: x in a ==> x in b
    requires forall x, y :: x in b && y in a && less(x, y) ==> x in a
    ensures a <= b
  {
    if a != [] {
      assert a[0] in b;
      assert b[0] in a;
      assert a[0] == b[0];
      forall x | x in a[1..] ensures x in b[1..] {
        assert x in b && x != a[0];
      }
      forall x, y | x in b[1..] && y in a[1..] && less(x, y) ensures x in a[1..] {
        assert x in a && x != b[0];
      }
      AscendingFront(less, a[1..], b[1..]);
    }
  }

  lemma AscendingUnique<T(!new)>(less: (T, T) -> bool, a: seq<T>, b: seq<T>)
    requires StrictOrder(less) && Ascending(less, a) && Ascending(less, b)
    requires forall x :: x in a <==> x in b
    ensures a == b
  {
    AscendingFront(less, a, b);
    AscendingFront(less, b, a);
  }
}
