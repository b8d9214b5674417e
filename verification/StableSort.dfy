/**
 The sort of JavaScript's arrays: stable, by a comparison. What a caller may rely on is that the result
 is ordered, holds the same elements, and keeps the order of elements that compare equal.
 */
module StableSort {
  ghost predicate TotalPreorder<T(!new)>(le: (T, T) -> bool) {
    && (forall x, y :: le(x, y) || le(y, x))
    && (forall x, y, z :: le(x, y) && le(y, z) ==> le(x, z))
  }

  ghost predicate Ordered<T>(le: (T, T) -> bool, xs: seq<T>) {
    forall i, j :: 0 <= i < j < |xs| ==> le(xs[i], xs[j])
  }

  /** The elements of `xs` that compare equal to `x`, in their order. */
  function Ties<T>(le: (T, T) -> bool, x: T, xs: seq<T>): seq<T> {
    if xs == [] then []
    else (if le(x, xs[0]) && le(xs[0], x) then [xs[0]] else []) + Ties(le, x, xs[1..])
  }

  function Insert<T>(le: (T, T) -> bool, x: T, xs: seq<T>): seq<T> {
    if xs == [] || le(x, xs[0]) then [x] + xs else [xs[0]] + Insert(le, x, xs[1..])
  }

  function Sort<T>(le: (T, T) -> bool, xs: seq<T>): seq<T> {
    if xs == [] then [] else Insert(le, xs[0], Sort(le, xs[1..]))
  }

  lemma {:induction false} InsertKeeps<T>(le: (T, T) -> bool, x: T, xs: seq<T>)
    ensures multiset(Insert(le, x, xs)) == multiset(xs) + multiset{x}
  {
    if xs == [] || le(x, xs[0]) {
    } else {
      InsertKeeps(le, x, xs[1..]);
      assert xs == [xs[0]] + xs[1..];
    }
  }

  lemma {:induction false} InsertOrdered<T(!new)>(le: (T, T) -> bool, x: T, xs: seq<T>)
    requires TotalPreorder(le) && Ordered(le, xs)
    ensures Ordered(le, Insert(le, x, xs))
  {
    if xs == [] || le(x, xs[0]) {
    } else {
      InsertOrdered(le, x, xs[1..]);
      InsertKeeps(le, x, xs[1..]);
      var rest := Insert(le, x, xs[1..]);
      forall j | 0 <= j < |rest|
        ensures le(xs[0], rest[j])
      {
        assert rest[j] in multiset(rest);
        assert rest[j] == x || rest[j] in xs[1..];
      }
    }
  }

  lemma {:induction false} InsertTies<T(!new)>(le: (T, T) -> bool, x: T, xs: seq<T>, y: T)
    requires TotalPreorder(le)
    ensures Ties(le, y, Insert(le, x, xs)) == Ties(le, y, [x] + xs)
  {
    if xs == [] || le(x, xs[0]) {
    } else {
      InsertTies(le, x, xs[1..], y);
      var rest := Insert(le, x, xs[1..]);
      assert ([xs[0]] + rest)[1..] == rest;
      assert ([x] + xs)[1..] == xs && ([x] + xs[1..])[1..] == xs[1..];
    }
  }

  /** What the sort promises. */
  lemma {:induction false} SortIsStable<T(!new)>(le: (T, T) -> bool, xs: seq<T>)
    requires TotalPreorder(le)
    ensures Ordered(le, Sort(le, xs))
    ensures multiset(Sort(le, xs)) == multiset(xs)
    ensures forall y :: Ties(le, y, Sort(le, xs)) == Ties(le, y, xs)
  {
    if xs != [] {
      var rest := Sort(le, xs[1..]);
      SortIsStable(le, xs[1..]);
      InsertOrdered(le, xs[0], rest);
      InsertKeeps(le, xs[0], rest);
      assert xs == [xs[0]] + xs[1..];
      forall y
        ensures Ties(le, y, Sort(le, xs)) == Ties(le, y, xs)
      {
        InsertTies(le, xs[0], rest, y);
        assert ([xs[0]] + rest)[1..] == rest;
      }
    }
  }

  lemma SortLength<T(!new)>(le: (T, T) -> bool, xs: seq<T>)
    requires TotalPreorder(le)
    ensures |Sort(le, xs)| == |xs|
    ensures forall x :: x in Sort(le, xs) <==> x in xs
  {
    SortIsStable(le, xs);
    assert |multiset(Sort(le, xs))| == |multiset(xs)|;
    forall x
      ensures x in Sort(le, xs) <==> x in xs
    {
      assert x in multiset(Sort(le, xs)) <==> x in multiset(xs);
    }
  }
}
