/** The JavaScript array searches the app relies on, over Dafny sequences. */
module Arrays {

  /** `xs.indexOf(v)`, and `xs.findIndex(x => x === v)`: the first position of `v`, or -1. */
  function IndexOf<T(==)>(xs: seq<T>, v: T): (r: int)
    ensures -1 <= r < |xs|
    ensures r == -1 <==> v !in xs
    ensures r >= 0 ==> xs[r] == v && v !in xs[..r]
  {
    if xs == [] then -1
    else if xs[0] == v then 0
    else
      var k := IndexOf(xs[1..], v);
      if k == -1 then -1
      else
        assert xs[..k + 1] == [xs[0]] + xs[1..][..k];
        k + 1
  }

  /** Every element is strictly smaller than the next one. */
  predicate StrictlyIncreasing(xs: seq<int>)
  {
    forall i, j :: 0 <= i < j < |xs| ==> xs[i] < xs[j]
  }

  /** In a strictly increasing sequence the position of an element is the only one holding it. */
  lemma IndexOfIncreasing(xs: seq<int>, i: int)
    requires StrictlyIncreasing(xs)
    requires 0 <= i < |xs|
    ensures IndexOf(xs, xs[i]) == i
  {
  }
}
