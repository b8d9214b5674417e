/** The distinct values of a list of numbers, in ascending order: `[...new Set(xs)].sort((a, b) => a - b)`. */
module RealSets {
  ghost predicate StrictlyAscending(xs: seq<real>) {
    forall i, j :: 0 <= i < j < |xs| ==> xs[i] < xs[j]
  }

  lemma Prepended(x: real, xs: seq<real>)
    requires StrictlyAscending(xs) && forall y :: y in xs ==> x < y
    ensures StrictlyAscending([x] + xs)
  {
    var longer := [x] + xs;
    forall i, j | 0 <= i < j < |longer|
      ensures longer[i] < longer[j]
    {
      assert longer[j] == xs[j - 1] && xs[j - 1] in xs;
      if i > 0 {
        assert longer[i] == xs[i - 1];
      }
    }
  }

  function Insert(x: real, xs: seq<real>): (r: seq<real>)
    requires StrictlyAscending(xs)
    ensures StrictlyAscending(r)
    ensures forall y :: y in r <==> y == x || y in xs
  {
    if xs == [] || x < xs[0] then [x] + xs
    else if x == xs[0] then xs
    else
      var rest := Insert(x, xs[1..]);
      assert forall y :: y in xs ==> y == xs[0] || y in xs[1..];
      Prepended(xs[0], rest);
      [xs[0]] + rest
  }

  function SortedDistinct(xs: seq<real>): (r: seq<real>)
    ensures StrictlyAscending(r)
    ensures forall y :: y in r <==> y in xs
  {
    if xs == [] then [] else Insert(xs[0], SortedDistinct(xs[1..]))
  }

  function MaxOf(xs: seq<real>): (m: real)
    requires xs != []
    ensures m in xs && forall x :: x in xs ==> x <= m
  {
    if |xs| == 1 then xs[0]
    else
      var m := MaxOf(xs[1..]);
      assert forall x :: x in xs ==> x == xs[0] || x in xs[1..];
      if xs[0] > m then xs[0] else m
  }

  function MinOf(xs: seq<real>): (m: real)
    requires xs != []
    ensures m in xs && forall x :: x in xs ==> m <= x
  {
    if |xs| == 1 then xs[0]
    else
      var m := MinOf(xs[1..]);
      assert forall x :: x in xs ==> x == xs[0] || x in xs[1..];
      if xs[0] < m then xs[0] else m
  }
}
