/** Sorting by any order: one ascending arrangement of a bag, however it was given. */
module Sorting {

  ghost predicate IsOrder<T(!new)>(le: (T, T) -> bool) {
    && (forall x, y :: le(x, y) || le(y, x))
    && forall x, y, z :: le(x, y) && le(y, z) ==> le(x, z)
  }

  function Insert<T>(x: T, s: seq<T>, le: (T, T) -> bool): (r: seq<T>)
    ensures multiset(r) == multiset(s) + multiset{x}
  {
    if s == [] || le(x, s[0]) then [x] + s
    else
      assert s == [s[0]] + s[1..];
      [s[0]] + Insert(x, s[1..], le)
  }

  function Sort<T>(s: seq<T>, le: (T, T) -> bool): (r: seq<T>)
    ensures multiset(r) == multiset(s)
  {
    if s == [] then []
    else
      assert s == [s[0]] + s[1..];
      Insert(s[0], Sort(s[1..], le), le)
  }

  /** The head is least, and so on down the list. */
  ghost predicate Ascending<T>(s: seq<T>, le: (T, T) -> bool) {
    s == [] || ((forall y :: y in s ==> le(s[0], y)) && Ascending(s[1..], le))
  }

  lemma {:induction false} InsertKeepsOrder<T(!new)>(x: T, s: seq<T>, le: (T, T) -> bool)
    requires IsOrder(le) && Ascending(s, le)
    ensures Ascending(Insert(x, s, le), le)
  {
    var r := Insert(x, s, le);
    assert le(x, x);
    if s == [] || le(x, s[0]) {
      assert r[1..] == s;
    } else {
      InsertKeepsOrder(x, s[1..], le);
      var rest := Insert(x, s[1..], le);
      assert r[1..] == rest;
      forall y | y in r ensures le(s[0], y) {
        assert y == s[0] || y in multiset(rest);
        assert y == x || y in s;
      }
    }
  }

  lemma {:induction false} SortIsAscending<T(!new)>(s: seq<T>, le: (T, T) -> bool)
    requires IsOrder(le)
    ensures Ascending(Sort(s, le), le)
  {
    if s != [] {
      SortIsAscending(s[1..], le);
      InsertKeepsOrder(s[0], Sort(s[1..], le), le);
    }
  }

  /** No two different members are level. */
  ghost predicate Strict<T(!new)>(s: seq<T>, le: (T, T) -> bool) {
    forall x, y :: x in s && y in s && le(x, y) && le(y, x) ==> x == y
  }

  lemma HeadIsLeast<T>(s: seq<T>, x: T, le: (T, T) -> bool)
    requires Ascending(s, le) && x in s
    ensures le(s[0], x)
  {
  }

  lemma SameRest<T>(a: seq<T>, b: seq<T>)
    requires a != [] && b != [] && a[0] == b[0] && multiset(a) == multiset(b)
    ensures multiset(a[1..]) == multiset(b[1..])
  {
    assert a == [a[0]] + a[1..] && b == [b[0]] + b[1..];
    assert multiset(a[1..]) == multiset(a) - multiset{a[0]};
    assert multiset(b[1..]) == multiset(b) - multiset{b[0]};
  }

  lemma SameHead<T(!new)>(a: seq<T>, b: seq<T>, le: (T, T) -> bool)
    requires Ascending(a, le) && Ascending(b, le) && multiset(a) == multiset(b) && Strict(a, le) && a != []
    ensures b != [] && a[0] == b[0]
  {
    hide Ascending;
    assert a[0] in multiset(a) && a[0] in multiset(b);
    assert b[0] in multiset(b) && b[0] in multiset(a);
    HeadIsLeast(a, b[0], le);
    HeadIsLeast(b, a[0], le);
  }

  /** There is one ascending arrangement. */
  lemma {:induction false} AscendingIsUnique<T(!new)>(a: seq<T>, b: seq<T>, le: (T, T) -> bool)
    requires Ascending(a, le) && Ascending(b, le) && multiset(a) == multiset(b) && Strict(a, le)
    ensures a == b
  {
    if a == [] {
      assert |multiset(b)| == |b|;
    } else {
      SameHead(a, b, le);
      SameRest(a, b);
      assert forall y :: y in a[1..] ==> y in a;
      AscendingIsUnique(a[1..], b[1..], le);
      assert a == [a[0]] + a[1..] && b == [b[0]] + b[1..];
    }
  }

  /** Sorting depends on the bag alone. */
  lemma SortOfSameBag<T(!new)>(a: seq<T>, b: seq<T>, le: (T, T) -> bool)
    requires IsOrder(le) && multiset(a) == multiset(b) && Strict(a, le)
    ensures Sort(a, le) == Sort(b, le)
  {
    hide IsOrder;
    SortIsAscending(a, le);
    SortIsAscending(b, le);
    forall x | x in Sort(a, le) ensures x in a {
      assert x in multiset(Sort(a, le)) && x in multiset(a);
    }
    AscendingIsUnique(Sort(a, le), Sort(b, le), le);
  }
}
